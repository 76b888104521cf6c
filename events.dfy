/**
 * The events the routes push to the browser and their Server-Sent Events framing:
 * each event is the line `data: <JSON>` followed by a blank line.
 */
module Events {
  import opened Wrappers
  import opened Strings
  import opened Json

  datatype Event =
    | Delta(delta: string)        // {type: 'response.output_text.delta', delta}
    | Completed                   // {type: 'response.completed'}
    | Failed(message: string)     // {type: 'response.error', error: {message}}
    | TextOnly(text: string)      // {text}, written by the frame-transition route

  predicate IsTerminal(e: Event) {
    e.Completed? || e.Failed?
  }

  /** The event the `try`/`catch` around a read loop ends with: `String(e)` of a caught error, or completion. */
  function Terminal(failure: Option<string>): Event {
    match failure
    case None => Completed
    case Some(message) => Failed(message)
  }

  function EventJson(e: Event): Json {
    match e
    case Delta(d) => JObj([Field("type", JStr("response.output_text.delta")), Field("delta", JStr(d))])
    case Completed => JObj([Field("type", JStr("response.completed"))])
    case Failed(m) => JObj([Field("type", JStr("response.error")), Field("error", JObj([Field("message", JStr(m))]))])
    case TextOnly(t) => JObj([Field("text", JStr(t))])
  }

  /** `JSON.stringify(event)`. */
  function Payload(e: Event): string {
    Stringify(EventJson(e))
  }

  /** `` `data: ${JSON.stringify(event)}\n\n` ``: one enqueued message. */
  function Frame(e: Event): string {
    "data: " + Payload(e) + "\n\n"
  }

  /** Everything written to the response body for a sequence of events, in order. */
  function Wire(events: seq<Event>): string {
    if |events| == 0 then "" else Wire(events[..|events| - 1]) + Frame(events[|events| - 1])
  }

  /** One `Delta` event per text, in order. */
  function AsDeltas(texts: seq<string>): (r: seq<Event>)
    ensures |r| == |texts|
  {
    if |texts| == 0 then [] else AsDeltas(texts[..|texts| - 1]) + [Delta(texts[|texts| - 1])]
  }

  /** The `i`-th event is the delta of the `i`-th text. */
  lemma {:induction false} AsDeltasAt(texts: seq<string>)
    ensures forall i :: 0 <= i < |texts| ==> AsDeltas(texts)[i] == Delta(texts[i])
  {
    if |texts| > 0 {
      AsDeltasAt(texts[..|texts| - 1]);
    }
  }

  /** The texts of the `Delta` events, concatenated in order: what a client accumulates. */
  function DeltaText(events: seq<Event>): string {
    if |events| == 0 then ""
    else
      var last := events[|events| - 1];
      DeltaText(events[..|events| - 1]) + (if last.Delta? then last.delta else "")
  }

  /** Exactly one terminal event, and it is the last one. */
  predicate EndsOnce(events: seq<Event>) {
    |events| > 0 && IsTerminal(events[|events| - 1])
    && forall i :: 0 <= i < |events| - 1 ==> !IsTerminal(events[i])
  }

  lemma AsDeltasAppend(texts: seq<string>, t: string)
    ensures AsDeltas(texts + [t]) == AsDeltas(texts) + [Delta(t)]
  {
    assert (texts + [t])[..|texts|] == texts;
  }

  lemma {:induction false} DeltaTextOfDeltas(texts: seq<string>)
    ensures DeltaText(AsDeltas(texts)) == Concat(texts)
  {
    if |texts| > 0 {
      DeltaTextOfDeltas(texts[..|texts| - 1]);
      assert AsDeltas(texts)[..|texts| - 1] == AsDeltas(texts[..|texts| - 1]);
    }
  }

  lemma {:induction false} DeltaTextAppend(a: seq<Event>, b: seq<Event>)
    ensures DeltaText(a + b) == DeltaText(a) + DeltaText(b)
    decreases |b|
  {
    if |b| > 0 {
      assert (a + b)[..|a + b| - 1] == a + b[..|b| - 1];
      DeltaTextAppend(a, b[..|b| - 1]);
    } else {
      assert a + b == a;
    }
  }

  lemma {:induction false} WireAppend(a: seq<Event>, b: seq<Event>)
    ensures Wire(a + b) == Wire(a) + Wire(b)
    decreases |b|
  {
    if |b| > 0 {
      assert (a + b)[..|a + b| - 1] == a + b[..|b| - 1];
      WireAppend(a, b[..|b| - 1]);
    } else {
      assert a + b == a;
    }
  }

  /**
   * Every payload is one line that starts with `{` and ends with `}`, so a message is exactly
   * one `data:` line and the blank line after it, and trimming the payload leaves it unchanged.
   */
  lemma PayloadIsOneCleanLine(e: Event)
    ensures '\n' !in Payload(e)
    ensures |Payload(e)| >= 2 && Payload(e)[0] == '{' && Payload(e)[|Payload(e)| - 1] == '}'
    ensures Clean(Payload(e))
  {
    var j := EventJson(e);
    assert j == JObj(j.fields);
    ObjectIsOneCleanLine(j.fields);
  }

  // ---------------------------------------------------------------- payloads are distinct

  /** `"s"` for a string that is written without escapes. */
  function Quoted(s: string): string {
    QQ + s + QQ
  }

  const QQ := "\""

  /** The one string an event carries, written escaped between constant text. */
  function Carried(e: Event): string {
    match e
    case Delta(d) => d
    case Completed => ""
    case Failed(m) => m
    case TextOnly(t) => t
  }

  /** The constant text before the carried string. */
  function Head(e: Event): string {
    match e
    case Delta(_) =>
      "{" + Quoted("type") + ":" + Quoted("response.output_text.delta") + "," + Quoted("delta") + ":" + QQ
    case Completed => "{" + Quoted("type") + ":" + Quoted("response.completed") + "}"
    case Failed(_) =>
      "{" + Quoted("type") + ":" + Quoted("response.error") + "," + Quoted("error") + ":"
      + ("{" + Quoted("message") + ":") + QQ
    case TextOnly(_) => "{" + Quoted("text") + ":" + QQ
  }

  /** The constant text after the carried string. */
  function Rear(e: Event): string {
    match e
    case Completed => ""
    case Failed(_) => QQ + "}}"
    case _ => QQ + "}"
  }

  lemma QuotePlain(s: string)
    requires forall i :: 0 <= i < |s| ==> Plain(s[i])
    ensures Quote(s) == Quoted(s)
  {
    EscapePlain(s);
  }

  // Each constant key and type is written without escapes.
  lemma QuoteType() ensures Quote("type") == Quoted("type") { QuotePlain("type"); }
  lemma QuoteDeltaType() ensures Quote("response.output_text.delta") == Quoted("response.output_text.delta") {
    QuotePlain("response.output_text.delta");
  }
  lemma QuoteCompletedType() ensures Quote("response.completed") == Quoted("response.completed") {
    QuotePlain("response.completed");
  }
  lemma QuoteErrorType() ensures Quote("response.error") == Quoted("response.error") { QuotePlain("response.error"); }
  lemma QuoteDeltaKey() ensures Quote("delta") == Quoted("delta") { QuotePlain("delta"); }
  lemma QuoteErrorKey() ensures Quote("error") == Quoted("error") { QuotePlain("error"); }
  lemma QuoteMessageKey() ensures Quote("message") == Quoted("message") { QuotePlain("message"); }
  lemma QuoteTextKey() ensures Quote("text") == Quoted("text") { QuotePlain("text"); }

  /** `{"k":"v"}` with a plain key, as head, escaped value and rear. */
  lemma SingleString(k: string, v: string)
    requires Quote(k) == Quoted(k)
    ensures Stringify(JObj([Field(k, JStr(v))])) == "{" + Quoted(k) + ":" + QQ + Escape(v) + (QQ + "}")
  {
    StringifySingle(k, JStr(v));
    AroundString("{" + Quoted(k) + ":", Escape(v));
  }

  /** `{"k":"t"}` with a plain key and value: nothing is carried. */
  lemma SingleTag(k: string, t: string)
    requires Quote(k) == Quoted(k) && Quote(t) == Quoted(t)
    ensures Stringify(JObj([Field(k, JStr(t))])) == "{" + Quoted(k) + ":" + Quoted(t) + "}" + Escape("") + ""
  {
    StringifySingle(k, JStr(t));
    assert Escape("") == "";
  }

  /** `{"k1":"t","k2":"v"}` with a plain first field and second key. */
  lemma PairString(k1: string, t: string, k2: string, v: string)
    requires Quote(k1) == Quoted(k1) && Quote(t) == Quoted(t) && Quote(k2) == Quoted(k2)
    ensures Stringify(JObj([Field(k1, JStr(t)), Field(k2, JStr(v))]))
         == "{" + Quoted(k1) + ":" + Quoted(t) + "," + Quoted(k2) + ":" + QQ + Escape(v) + (QQ + "}")
  {
    StringifyPair(k1, JStr(t), k2, JStr(v));
    AroundString("{" + Quoted(k1) + ":" + Quoted(t) + "," + Quoted(k2) + ":", Escape(v));
  }

  /** `{"k1":"t","k2":{"k3":"v"}}` with plain keys and first value. */
  lemma NestedString(k1: string, t: string, k2: string, k3: string, v: string)
    requires Quote(k1) == Quoted(k1) && Quote(t) == Quoted(t) && Quote(k2) == Quoted(k2) && Quote(k3) == Quoted(k3)
    ensures Stringify(JObj([Field(k1, JStr(t)), Field(k2, JObj([Field(k3, JStr(v))]))]))
         == "{" + Quoted(k1) + ":" + Quoted(t) + "," + Quoted(k2) + ":" + ("{" + Quoted(k3) + ":") + QQ
            + Escape(v) + (QQ + "}}")
  {
    StringifySingle(k3, JStr(v));
    StringifyPair(k1, JStr(t), k2, JObj([Field(k3, JStr(v))]));
    AroundNestedString("{" + Quoted(k1) + ":" + Quoted(t) + "," + Quoted(k2) + ":", "{" + Quoted(k3) + ":", Escape(v));
  }

  /** A payload is its head, the carried string escaped, and its rear. */
  lemma PayloadShape(e: Event)
    ensures Payload(e) == Head(e) + Escape(Carried(e)) + Rear(e)
  {
    match e
    case Delta(d) => DeltaShape(d);
    case Completed => CompletedShape();
    case Failed(m) => FailedShape(m);
    case TextOnly(t) => TextShape(t);
  }

  lemma DeltaShape(d: string)
    ensures Payload(Delta(d)) == Head(Delta(d)) + Escape(d) + Rear(Delta(d))
  {
    QuoteType();
    QuoteDeltaType();
    QuoteDeltaKey();
    PairString("type", "response.output_text.delta", "delta", d);
  }

  lemma CompletedShape()
    ensures Payload(Completed) == Head(Completed) + Escape("") + Rear(Completed)
  {
    QuoteType();
    QuoteCompletedType();
    SingleTag("type", "response.completed");
  }

  lemma FailedShape(m: string)
    ensures Payload(Failed(m)) == Head(Failed(m)) + Escape(m) + Rear(Failed(m))
  {
    QuoteType();
    QuoteErrorType();
    QuoteErrorKey();
    QuoteMessageKey();
    NestedString("type", "response.error", "error", "message", m);
  }

  lemma TextShape(t: string)
    ensures Payload(TextOnly(t)) == Head(TextOnly(t)) + Escape(t) + Rear(TextOnly(t))
  {
    QuoteTextKey();
    SingleString("text", t);
  }

  lemma AroundString(front: string, x: string)
    ensures front + (QQ + x + QQ) + "}" == front + QQ + x + (QQ + "}")
  {
  }

  lemma AroundNestedString(front: string, inner: string, x: string)
    ensures front + (inner + (QQ + x + QQ) + "}") + "}" == front + inner + QQ + x + (QQ + "}}")
  {
  }

  /** The fourth character tells `{text}` from a typed event, and the nineteenth tells the types apart. */
  lemma HeadTags(e: Event)
    ensures |Head(e)| > 3 && Head(e)[3] == (if e.TextOnly? then 'e' else 'y')
    ensures !e.TextOnly? ==> |Head(e)| > 18 && Head(e)[18] == (if e.Delta? then 'o' else if e.Completed? then 'c' else 'e')
  {
    match e
    case Delta(_) =>
      TypedTag("response.output_text.delta");
      assert Head(e) == TypedPrefix("response.output_text.delta") + "," + Quoted("delta") + ":" + QQ;
    case Completed =>
      TypedTag("response.completed");
      assert Head(e) == TypedPrefix("response.completed") + "}";
    case Failed(_) =>
      TypedTag("response.error");
      assert Head(e) == TypedPrefix("response.error") + "," + Quoted("error") + ":" + ("{" + Quoted("message") + ":") + QQ;
    case TextOnly(_) =>
  }

  function TypedPrefix(t: string): string {
    "{" + Quoted("type") + ":" + Quoted(t)
  }

  lemma TypedTag(t: string)
    requires |t| > 9
    ensures |TypedPrefix(t)| > 18 && TypedPrefix(t)[3] == 'y' && TypedPrefix(t)[18] == t[9]
  {
    var typed := "{" + Quoted("type") + ":" + QQ;
    assert |typed| == 9 && typed[3] == 'y';
    assert TypedPrefix(t) == typed + t + QQ;
  }

  lemma Cancel(a: string, x: string, b: string, y: string, c: string)
    requires a + x + b == a + y + c && b == c
    ensures x == y
  {
    assert x == (a + x + b)[|a|..|a| + |x|];
  }

  /** Different events are written differently, so a parser can read every event back. */
  lemma PayloadInjective(e1: Event, e2: Event)
    requires Payload(e1) == Payload(e2)
    ensures e1 == e2
  {
    PayloadShape(e1);
    PayloadShape(e2);
    ShapeInjective(e1, e2);
  }

  lemma ShapeInjective(e1: Event, e2: Event)
    requires Head(e1) + Escape(Carried(e1)) + Rear(e1) == Head(e2) + Escape(Carried(e2)) + Rear(e2)
    ensures e1 == e2
  {
    HeadTags(e1);
    HeadTags(e2);
    SameChar(Head(e1), Escape(Carried(e1)), Rear(e1), Head(e2), Escape(Carried(e2)), Rear(e2), 3);
    if !e1.TextOnly? && !e2.TextOnly? {
      SameChar(Head(e1), Escape(Carried(e1)), Rear(e1), Head(e2), Escape(Carried(e2)), Rear(e2), 18);
    }
    SameKind(e1, e2);
    Cancel(Head(e1), Escape(Carried(e1)), Rear(e1), Escape(Carried(e2)), Rear(e2));
    EscapeInjective(Carried(e1), Carried(e2));
  }

  /** Events whose heads agree at the tag positions are of the same kind, so their constant text agrees. */
  lemma SameKind(e1: Event, e2: Event)
    requires |Head(e1)| > 3 && |Head(e2)| > 3 && Head(e1)[3] == Head(e2)[3]
    requires !e1.TextOnly? && !e2.TextOnly? ==> |Head(e1)| > 18 && |Head(e2)| > 18 && Head(e1)[18] == Head(e2)[18]
    ensures Head(e1) == Head(e2) && Rear(e1) == Rear(e2)
  {
    HeadTags(e1);
    HeadTags(e2);
  }

  lemma SameChar(h1: string, x1: string, r1: string, h2: string, x2: string, r2: string, i: nat)
    requires h1 + x1 + r1 == h2 + x2 + r2 && i < |h1| && i < |h2|
    ensures h1[i] == h2[i]
  {
    assert (h1 + x1 + r1)[i] == h1[i];
    assert (h2 + x2 + r2)[i] == h2[i];
  }


  /**
   * A stream of deltas closed by one terminal event ends once, and a client accumulating its
   * deltas reads the texts concatenated in order.
   */
  lemma DeltasThenTerminal(texts: seq<string>, failure: Option<string>)
    ensures EndsOnce(AsDeltas(texts) + [Terminal(failure)])
    ensures DeltaText(AsDeltas(texts) + [Terminal(failure)]) == Concat(texts)
  {
    DeltaTextAppend(AsDeltas(texts), [Terminal(failure)]);
    assert DeltaText([Terminal(failure)]) == "";
    DeltaTextOfDeltas(texts);
  }
}
