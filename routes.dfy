/**
 * The `POST` handlers of the seven relay routes up to the point where they start relaying:
 * request decoding, the checks on the prompt, the images and the API key, the 4 MiB image
 * limit, the language defaults, the upstream status check and, for the two non-streaming
 * routes, the fallback to the original prompt. What the streaming routes then write is
 * modelled by the stream modules.
 */
module Routes {
  import opened Wrappers
  import opened Json
  import opened StaticExtract

  /** A multipart field: `form.get(name)` is a string or a `File`. */
  datatype FormValue = Text(s: string) | File(bytes: nat, mime: string)

  /** The fields of a multipart body; a missing name is `null` to `form.get`. */
  type Form = map<string, FormValue>

  /** The language the upstream prompt template asks for. */
  datatype Lang = English | Chinese

  /** What `fetch` to Gemini produced: a rejection (network error, abort), or a response. */
  datatype Upstream = FetchFailed | Answered(ok: bool, status: nat, body: string)

  /** The upstream request a route makes once every check passed: prompt, language, image types. */
  datatype Call = Call(prompt: string, lang: Lang, mimes: seq<string>)

  /** What a handler answers. */
  datatype Reply =
    | Refused(status: nat, error: Option<string>)         // `{error}`; `None`: a runtime error's own message
    | Relayed(call: Call)                                  // the `text/event-stream` response
    | Optimized(optimizedPrompt: string, language: Json)   // `{optimizedPrompt, language}`

  const PromptRequired := "提示词不能为空"
  const ImageRequired := "请上传参考图片"
  const KeyMissing := "缺少 AIHUBMIX_API_KEY 环境变量"
  const FrameInputsRequired := "缺少必要参数：提示词、首帧或尾帧图片"
  const FrameKeyMissing := "API密钥未配置"
  const FrameUpstreamDown := "AI服务暂时不可用，请稍后重试"
  const FrameInternal := "服务器内部错误"
  const DefaultMime := "image/png"
  const MiB := 1024 * 1024
  const MaxImageBytes := 4 * MiB

  function UpstreamFailed(status: nat): string {
    "Gemini API 调用失败: " + NumberText(status)
  }

  function UpstreamFailedWith(status: nat, errorText: string): string {
    UpstreamFailed(status) + " - " + errorText
  }

  /** `Math.round(bytes / 1024 / 1024)`: the nearest whole number of MiB, halves rounded up. */
  function RoundMiB(bytes: nat): (r: nat)
    ensures 2 * bytes < (2 * r + 1) * MiB
    ensures (2 * r - 1) * MiB <= 2 * bytes
  {
    (bytes + MiB / 2) / MiB
  }

  function TooLarge(bytes: nat): string {
    "图片过大（" + NumberText(RoundMiB(bytes)) + "MB），请压缩至4MB以下"
  }

  // ---------------------------------------------------------------- JSON bodies

  /** `!prompt || typeof prompt !== 'string'` does not reject it. */
  predicate GoodPrompt(prompt: Option<Json>) {
    prompt.Some? && prompt.value.JStr? && prompt.value.s != ""
  }

  /** `const { prompt, language = 'en' } = body`: the default applies only to a missing key. */
  function BodyLanguage(body: Json): Json {
    Get(body, "language").GetOr(JStr("en"))
  }

  /** `language === 'zh' ? '中文' : '英文'`. */
  function JsonLang(language: Json): Lang {
    if language == JStr("zh") then Chinese else English
  }

  /**
   * Lines 13-16 of the JSON streaming routes: `req.json()` must succeed (`body` is `None`
   * otherwise), destructuring `null` throws, and the prompt must be a non-empty string.
   */
  function BodyRejection(body: Option<Json>): (r: Option<Reply>)
    ensures r.None? <==> body.Some? && body.value != JNull && GoodPrompt(Get(body.value, "prompt"))
    ensures r.Some? ==> r.value.Refused?
    ensures body.None? || body.value == JNull ==> r == Some(Refused(500, None))
    ensures body.Some? && body.value != JNull && !GoodPrompt(Get(body.value, "prompt")) ==>
      r == Some(Refused(400, Some(PromptRequired)))
  {
    if body.None? || body.value == JNull then Some(Refused(500, None))
    else if !GoodPrompt(Get(body.value, "prompt")) then Some(Refused(400, Some(PromptRequired)))
    else None
  }

  /** `response.ok` tested after `fetch`; `withText` adds the upstream's body to the message. */
  function UpstreamRejection(upstream: Upstream, withText: bool): (r: Option<Reply>)
    ensures r.None? <==> upstream.Answered? && upstream.ok
    ensures r.Some? ==> r.value.Refused? && r.value.status == 500
  {
    match upstream
    case FetchFailed => Some(Refused(500, None))
    case Answered(ok, status, text) =>
      if ok then None
      else if withText then Some(Refused(500, Some(UpstreamFailedWith(status, text))))
      else Some(Refused(500, Some(UpstreamFailed(status))))
  }

  /**
   * The handler of app/api/optimize-and-generate/stream/route.js (`withText` false) and of
   * app/api/optimize-and-generate-video/stream/route.js (`withText` true): it relays exactly
   * when the body holds a non-empty string prompt, the key is set and Gemini answered `ok`.
   */
  function JsonStreamRoute(body: Option<Json>, hasKey: bool, upstream: Upstream, withText: bool): (r: Reply)
    ensures r.Relayed? <==> BodyRejection(body).None? && hasKey && upstream.Answered? && upstream.ok
    ensures r.Relayed? ==> r.call.prompt != "" && r.call.mimes == []
    ensures !r.Optimized?
  {
    if BodyRejection(body).Some? then BodyRejection(body).value
    else if !hasKey then Refused(500, Some(KeyMissing))
    else if UpstreamRejection(upstream, withText).Some? then UpstreamRejection(upstream, withText).value
    else
      var b := body.value;
      Relayed(Call(Get(b, "prompt").value.s, JsonLang(BodyLanguage(b)), []))
  }

  /**
   * app/api/optimize-and-generate/route.js: the non-streaming text-to-image handler. Logging
   * `prompt?.substring(0, 100)` throws for a prompt that is neither a string nor `null`, before
   * it is validated; after a successful call, `response.json()` must parse and the extracted
   * text replaces the prompt unless it is empty.
   */
  function GenerateRoute(body: Option<Json>, hasKey: bool, upstream: Upstream,
                         parse: string -> Option<Json>): (r: Reply)
    ensures r.Optimized? ==> r.optimizedPrompt != ""
    ensures r.Optimized? ==> body.Some? && r.language == BodyLanguage(body.value)
    ensures r.Optimized? <==>
      (BodyRejection(body).None? && hasKey && upstream.Answered? && upstream.ok
       && parse(upstream.body).Some? && ExtractText(parse(upstream.body).value).Extracted?)
    ensures !r.Relayed?
  {
    if body.None? || body.value == JNull then Refused(500, None)
    else
      var prompt := Get(body.value, "prompt");
      if prompt.Some? && prompt.value != JNull && !prompt.value.JStr? then Refused(500, None)
      else if BodyRejection(body).Some? then BodyRejection(body).value
      else if !hasKey then Refused(500, Some(KeyMissing))
      else if UpstreamRejection(upstream, false).Some? then UpstreamRejection(upstream, false).value
      else
        match parse(upstream.body)
        case None => Refused(500, None)
        case Some(data) =>
          match ExtractText(data)
          case Raised => Refused(500, None)
          case Extracted(t) => Optimized(if t != "" then t else prompt.value.s, BodyLanguage(body.value))
  }

  // ---------------------------------------------------------------- multipart bodies

  /** `form.get(name)`, `None` for `null`. */
  function FormGet(form: Form, name: string): Option<FormValue> {
    if name in form then Some(form[name]) else None
  }

  /** JavaScript truthiness of a `form.get` result: a `File` is an object, so always truthy. */
  predicate Truthful(v: Option<FormValue>) {
    v.Some? && (v.value.File? || v.value.s != "")
  }

  /** The prompt, when `!prompt || typeof prompt !== 'string'` does not reject it. */
  function FormPrompt(form: Form): (r: Option<string>)
    ensures r.Some? ==> r.value != ""
  {
    match FormGet(form, "prompt")
    case Some(Text(s)) => if s != "" then Some(s) else None
    case _ => None
  }

  /** `form.get('language') || fallback`. */
  function FormLanguage(form: Form, fallback: string): FormValue {
    if Truthful(FormGet(form, "language")) then FormGet(form, "language").value else Text(fallback)
  }

  /** `language === 'zh' ? '中文' : '英文'`. */
  function FormLang(language: FormValue): Lang {
    if language == Text("zh") then Chinese else English
  }

  /** How `NextResponse.json` writes the value back: a `File` has no own enumerable properties. */
  function Echo(v: FormValue): Json {
    match v
    case Text(s) => JStr(s)
    case File(_, _) => JObj([])
  }

  /**
   * `readFileFromFormData` and the test after it: a missing or empty `image` is refused with
   * 400; a non-empty string has no `arrayBuffer` method, so the call throws (500).
   */
  function ImageRejection(form: Form): (r: Option<Reply>)
    ensures r.None? <==> FormGet(form, "image").Some? && FormGet(form, "image").value.File?
    ensures r.Some? ==> r.value.Refused?
  {
    match FormGet(form, "image")
    case Some(File(_, _)) => None
    case Some(Text(s)) => if s != "" then Some(Refused(500, None)) else Some(Refused(400, Some(ImageRequired)))
    case None => Some(Refused(400, Some(ImageRequired)))
  }

  /** `fileObj.type || 'image/png'`. */
  function ImageMime(image: FormValue): string
    requires image.File?
  {
    if image.mime != "" then image.mime else DefaultMime
  }

  /**
   * The handler of app/api/optimize-and-edit/stream/route.js (`sizeLimit` false) and of
   * app/api/optimize-and-edit-video/stream/route.js (`sizeLimit` true): prompt, image, key,
   * then (video only) the 4 MiB limit, then the upstream status.
   */
  function FormStreamRoute(form: Form, hasKey: bool, upstream: Upstream, sizeLimit: bool): (r: Reply)
    ensures r.Relayed? <==>
      (FormPrompt(form).Some? && ImageRejection(form).None? && hasKey
       && (sizeLimit ==> FormGet(form, "image").value.bytes <= MaxImageBytes)
       && upstream.Answered? && upstream.ok)
    ensures r.Relayed? ==> r.call.prompt != "" && |r.call.mimes| == 1 && r.call.mimes[0] != ""
    ensures !r.Optimized?
  {
    if FormPrompt(form).None? then Refused(400, Some(PromptRequired))
    else if ImageRejection(form).Some? then ImageRejection(form).value
    else if !hasKey then Refused(500, Some(KeyMissing))
    else
      var image := FormGet(form, "image").value;
      if sizeLimit && image.bytes > MaxImageBytes then Refused(400, Some(TooLarge(image.bytes)))
      else if UpstreamRejection(upstream, true).Some? then UpstreamRejection(upstream, true).value
      else Relayed(Call(FormPrompt(form).value, FormLang(FormLanguage(form, "en")), [ImageMime(image)]))
  }

  /**
   * app/api/optimize-and-edit/route.js: the non-streaming image-to-image handler. Logging
   * `prompt?.substring(0, 100)` throws for a `File` prompt before it is validated.
   */
  function EditRoute(form: Form, hasKey: bool, upstream: Upstream, parse: string -> Option<Json>): (r: Reply)
    ensures r.Optimized? ==> r.optimizedPrompt != ""
    ensures r.Optimized? ==> r.language == Echo(FormLanguage(form, "en"))
    ensures r.Optimized? <==>
      (FormPrompt(form).Some? && ImageRejection(form).None? && hasKey
       && upstream.Answered? && upstream.ok
       && parse(upstream.body).Some? && ExtractText(parse(upstream.body).value).Extracted?)
    ensures !r.Relayed?
  {
    var prompt := FormGet(form, "prompt");
    if prompt.Some? && prompt.value.File? then Refused(500, None)
    else if FormPrompt(form).None? then Refused(400, Some(PromptRequired))
    else if ImageRejection(form).Some? then ImageRejection(form).value
    else if !hasKey then Refused(500, Some(KeyMissing))
    else if UpstreamRejection(upstream, false).Some? then UpstreamRejection(upstream, false).value
    else
      match parse(upstream.body)
      case None => Refused(500, None)
      case Some(data) =>
        match ExtractText(data)
        case Raised => Refused(500, None)
        case Extracted(t) =>
          Optimized(if t != "" then t else FormPrompt(form).value, Echo(FormLanguage(form, "en")))
  }

  /** `language === 'en'` picks the English template; anything else, the Chinese one. */
  function FrameLang(language: FormValue): Lang {
    if language == Text("en") then English else Chinese
  }

  /** The prompt as the template interpolates it. */
  function Interpolated(v: FormValue): string {
    match v
    case Text(s) => s
    case File(_, _) => "[object File]"
  }

  /**
   * app/api/optimize-frame-transition/stream/route.js: all three inputs truthy, the key set,
   * both frames readable as files, then the upstream status; every failure after the input
   * check is a 500 with this route's own messages, and the frames' types are sent as given.
   */
  function FrameRoute(form: Form, hasKey: bool, upstream: Upstream): (r: Reply)
    ensures r.Relayed? <==>
      (Truthful(FormGet(form, "prompt")) && hasKey
       && FormGet(form, "firstFrame").Some? && FormGet(form, "firstFrame").value.File?
       && FormGet(form, "lastFrame").Some? && FormGet(form, "lastFrame").value.File?
       && upstream.Answered? && upstream.ok)
    ensures r.Refused? && r.status == 400 <==> r == Refused(400, Some(FrameInputsRequired))
    ensures (!Truthful(FormGet(form, "prompt")) || !Truthful(FormGet(form, "firstFrame"))
             || !Truthful(FormGet(form, "lastFrame"))) ==> r == Refused(400, Some(FrameInputsRequired))
    ensures r.Refused? ==> r.error.Some?
    ensures r.Relayed? ==> r.call.prompt != "" && |r.call.mimes| == 2
    ensures !r.Optimized?
  {
    var prompt, first, last := FormGet(form, "prompt"), FormGet(form, "firstFrame"), FormGet(form, "lastFrame");
    if !Truthful(prompt) || !Truthful(first) || !Truthful(last) then Refused(400, Some(FrameInputsRequired))
    else if !hasKey then Refused(500, Some(FrameKeyMissing))
    else if !first.value.File? || !last.value.File? then Refused(500, Some(FrameInternal))
    else
      match upstream
      case FetchFailed => Refused(500, Some(FrameInternal))
      case Answered(ok, _, _) =>
        if !ok then Refused(500, Some(FrameUpstreamDown))
        else
          Relayed(Call(Interpolated(prompt.value), FrameLang(FormLanguage(form, "zh")),
                       [first.value.mime, last.value.mime]))
  }

  // ---------------------------------------------------------------- properties

  /**
   * Checks run in the order of both multipart streaming routes: a bad prompt is reported
   * before a missing image, a missing image before a missing key, and (image-to-video only) a
   * missing key before an oversized image; none of them depends on the upstream.
   */
  lemma ChecksRunInSourceOrder(form: Form, hasKey: bool, upstream: Upstream, sizeLimit: bool)
    ensures FormPrompt(form).None? ==>
      FormStreamRoute(form, hasKey, upstream, sizeLimit) == Refused(400, Some(PromptRequired))
    ensures FormPrompt(form).Some? && FormGet(form, "image").None? ==>
      FormStreamRoute(form, hasKey, upstream, sizeLimit) == Refused(400, Some(ImageRequired))
    ensures FormPrompt(form).Some? && ImageRejection(form).None? && !hasKey ==>
      FormStreamRoute(form, hasKey, upstream, sizeLimit) == Refused(500, Some(KeyMissing))
    ensures (sizeLimit && FormPrompt(form).Some? && ImageRejection(form).None? && hasKey
             && FormGet(form, "image").value.bytes > MaxImageBytes) ==>
      FormStreamRoute(form, hasKey, upstream, sizeLimit) == Refused(400, Some(TooLarge(FormGet(form, "image").value.bytes)))
  {
  }

  /**
   * A missing, `null` or empty prompt in a JSON body is a 400 whatever the key and the upstream:
   * on both streaming routes, and on the non-streaming route, whose `prompt?.substring` log
   * line passes `null` and `""`.
   */
  lemma JsonPromptRequired(body: Json, hasKey: bool, upstream: Upstream, withText: bool, parse: string -> Option<Json>)
    requires body != JNull
    requires var p := Get(body, "prompt"); p.None? || p == Some(JNull) || p == Some(JStr(""))
    ensures JsonStreamRoute(Some(body), hasKey, upstream, withText) == Refused(400, Some(PromptRequired))
    ensures GenerateRoute(Some(body), hasKey, upstream, parse) == Refused(400, Some(PromptRequired))
  {
  }

  /**
   * The checks of app/api/optimize-and-edit/route.js in order: a `File` prompt throws in the log
   * line (500); then a missing or empty prompt is a 400; then a missing or empty image is a 400,
   * and a string image throws (500); then a missing key is a 500. None depends on the upstream.
   */
  lemma EditChecksInOrder(form: Form, hasKey: bool, upstream: Upstream, parse: string -> Option<Json>)
    ensures FormGet(form, "prompt").Some? && FormGet(form, "prompt").value.File? ==>
      EditRoute(form, hasKey, upstream, parse) == Refused(500, None)
    ensures FormGet(form, "prompt").None? || FormGet(form, "prompt") == Some(Text("")) ==>
      EditRoute(form, hasKey, upstream, parse) == Refused(400, Some(PromptRequired))
    ensures FormPrompt(form).Some? && (FormGet(form, "image").None? || FormGet(form, "image") == Some(Text(""))) ==>
      EditRoute(form, hasKey, upstream, parse) == Refused(400, Some(ImageRequired))
    ensures FormPrompt(form).Some? && FormGet(form, "image").Some? && FormGet(form, "image").value.Text?
            && FormGet(form, "image").value.s != "" ==>
      EditRoute(form, hasKey, upstream, parse) == Refused(500, None)
    ensures FormPrompt(form).Some? && ImageRejection(form).None? && !hasKey ==>
      EditRoute(form, hasKey, upstream, parse) == Refused(500, Some(KeyMissing))
  {
  }

  /** A rejection with 400 never depends on the key or on what the upstream would answer. */
  lemma ValidationPrecedesUpstream(form: Form, hasKey: bool, up1: Upstream, up2: Upstream, sizeLimit: bool)
    requires FormStreamRoute(form, hasKey, up1, sizeLimit).Refused?
    requires FormStreamRoute(form, hasKey, up1, sizeLimit).status == 400
    ensures FormStreamRoute(form, hasKey, up2, sizeLimit) == FormStreamRoute(form, hasKey, up1, sizeLimit)
    ensures hasKey || FormStreamRoute(form, true, up1, sizeLimit) == FormStreamRoute(form, hasKey, up1, sizeLimit)
  {
  }

  /**
   * The 4 MiB limit is `>`: an image of exactly 4 MiB is sent, one byte more is refused and
   * reported as `4MB`.
   */
  lemma SizeLimitBoundary(prompt: string, mime: string, upstream: Upstream)
    requires prompt != "" && upstream.Answered? && upstream.ok
    ensures FormStreamRoute(map["prompt" := Text(prompt), "image" := File(MaxImageBytes, mime)], true, upstream, true).Relayed?
    ensures FormStreamRoute(map["prompt" := Text(prompt), "image" := File(MaxImageBytes + 1, mime)], true, upstream, true)
         == Refused(400, Some("图片过大（4MB），请压缩至4MB以下"))
    ensures FormStreamRoute(map["prompt" := Text(prompt), "image" := File(MaxImageBytes + 1, mime)], true, upstream, false).Relayed?
  {
    var form := map["prompt" := Text(prompt), "image" := File(MaxImageBytes + 1, mime)];
    assert FormGet(form, "image") == Some(File(MaxImageBytes + 1, mime));
    assert FormGet(form, "prompt") == Some(Text(prompt));
    assert RoundMiB(MaxImageBytes + 1) == 4;
    assert NumberText(4) == "4" by {
      assert HexDigit(4) == '4';
    }
    assert TooLarge(MaxImageBytes + 1) == "图片过大（" + "4" + "MB），请压缩至4MB以下";
    assert "图片过大（" + "4" + "MB），请压缩至4MB以下" == "图片过大（4MB），请压缩至4MB以下";
  }

  /**
   * The non-streaming routes never answer an empty prompt: the extracted text when there is
   * one, the original prompt otherwise.
   */
  lemma FallsBackToPrompt(body: Json, hasKey: bool, upstream: Upstream, parse: string -> Option<Json>)
    requires GenerateRoute(Some(body), hasKey, upstream, parse).Optimized?
    ensures var r := GenerateRoute(Some(body), hasKey, upstream, parse);
      var extracted := ExtractText(parse(upstream.body).value).text;
      (extracted != "" ==> r.optimizedPrompt == extracted)
      && (extracted == "" ==> JStr(r.optimizedPrompt) == Get(body, "prompt").value)
  {
  }

  /** The image-to-image route answers the extracted text when non-empty, the form's prompt otherwise. */
  lemma EditFallsBackToPrompt(form: Form, hasKey: bool, upstream: Upstream, parse: string -> Option<Json>)
    requires EditRoute(form, hasKey, upstream, parse).Optimized?
    ensures var r := EditRoute(form, hasKey, upstream, parse);
      var extracted := ExtractText(parse(upstream.body).value).text;
      (extracted != "" ==> r.optimizedPrompt == extracted)
      && (extracted == "" ==> FormGet(form, "prompt") == Some(Text(r.optimizedPrompt)))
  {
  }

  /**
   * The JSON routes and the multipart routes default to English; the frame-transition route
   * defaults to Chinese, and it also picks Chinese for any value other than `en`.
   */
  lemma LanguageDefaultsDiffer(form: Form, other: string)
    requires "language" !in form
    requires other != "en" && other != "zh"
    ensures JsonLang(BodyLanguage(JObj([]))) == English
    ensures FormLang(FormLanguage(form, "en")) == English && FrameLang(FormLanguage(form, "zh")) == Chinese
    ensures FormLang(Text(other)) == English && FrameLang(Text(other)) == Chinese
    ensures FormLang(Text("zh")) == FrameLang(Text("zh")) == Chinese
    ensures FormLang(Text("en")) == FrameLang(Text("en")) == English
  {
    assert Get(JObj([]), "language") == None;
  }

  /**
   * An explicit `"language": null` is not replaced by the default: destructuring defaults only
   * apply to a missing key, so `null` is echoed and the template falls back to English.
   */
  lemma NullLanguageIsKept(prompt: string)
    ensures BodyLanguage(JObj([Field("prompt", JStr(prompt)), Field("language", JNull)])) == JNull
    ensures JsonLang(JNull) == English
  {
  }

  /**
   * A prompt that is a number is a 400 on the streaming JSON routes but a 500 on the
   * non-streaming one, whose logging calls `substring` on it before the check.
   */
  lemma NumericPromptDiffers(n: int, hasKey: bool, upstream: Upstream, parse: string -> Option<Json>)
    ensures var body := JObj([Field("prompt", JNum(n))]);
      JsonStreamRoute(Some(body), hasKey, upstream, false) == Refused(400, Some(PromptRequired))
      && GenerateRoute(Some(body), hasKey, upstream, parse) == Refused(500, None)
  {
    var body := JObj([Field("prompt", JNum(n))]);
    assert Get(body, "prompt") == Some(JNum(n));
  }

  /** An image without a type is sent as `image/png`; the frame route sends the type as given. */
  lemma MimeDefault(prompt: string, bytes: nat, upstream: Upstream)
    requires prompt != "" && upstream.Answered? && upstream.ok && bytes <= MaxImageBytes
    ensures FormStreamRoute(map["prompt" := Text(prompt), "image" := File(bytes, "")], true, upstream, true).call.mimes
         == [DefaultMime]
    ensures FrameRoute(map["prompt" := Text(prompt), "firstFrame" := File(bytes, ""), "lastFrame" := File(bytes, "")],
                       true, upstream).call.mimes == ["", ""]
  {
    var form := map["prompt" := Text(prompt), "image" := File(bytes, "")];
    assert FormGet(form, "image") == Some(File(bytes, ""));
    assert FormGet(form, "prompt") == Some(Text(prompt));
    var frames := map["prompt" := Text(prompt), "firstFrame" := File(bytes, ""), "lastFrame" := File(bytes, "")];
    assert FormGet(frames, "prompt") == Some(Text(prompt));
    assert FormGet(frames, "firstFrame") == Some(File(bytes, ""));
    assert FormGet(frames, "lastFrame") == Some(File(bytes, ""));
  }
}
