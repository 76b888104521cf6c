/**
 * The walk every streaming route does over one upstream Gemini record:
 * `data.candidates[0].content.parts[0].text`, each step guarded by a truthiness test.
 */
module Candidates {
  import opened Wrappers
  import opened Json

  /** What the guarded walk yields: a `TypeError` (reading a property of `null`), nothing, or a text. */
  datatype Lookup = Threw | NoText | Found(text: string)

  /** Where the guarded walk ends: a `TypeError`, a falsy step, or the truthy value of `parts[0].text`. */
  datatype Reach = Fails | Absent | Reached(value: Json)

  /**
   * `data.candidates && data.candidates[0] && data.candidates[0].content`, then
   * `parts && parts[0] && parts[0].text`. Only `data` itself can be `null` when a property is
   * read; every later read is guarded by a truthiness test.
   */
  function FirstPartValue(data: Json): (r: Reach)
    ensures r.Fails? <==> data == JNull
    ensures r.Reached? ==> Truthy(r.value)
  {
    if data == JNull then Fails
    else
      var candidates := Get(data, "candidates");
      if !Present(candidates) then Absent
      else
        var first := First(candidates.value);
        if !Present(first) then Absent
        else
          var content := Get(first.value, "content");
          if !Present(content) then Absent
          else
            var parts := Get(content.value, "parts");
            if !Present(parts) then Absent
            else
              var part := First(parts.value);
              if !Present(part) then Absent
              else
                var text := Get(part.value, "text");
                if Present(text) then Reached(text.value) else Absent
  }

  /** The walk as the line routes use it: a truthy `text` that is not a string is treated as absent. */
  function FirstPartText(data: Json): (r: Lookup)
    ensures r.Threw? <==> data == JNull
    ensures r.Found? ==> r.text != ""
  {
    match FirstPartValue(data)
    case Fails => Threw
    case Absent => NoText
    case Reached(v) => if v.JStr? then Found(v.s) else NoText
  }

  /** A record with one candidate whose first part carries `parts`' first element. */
  function Record(candidates: seq<Json>): Json {
    JObj([Field("candidates", JArr(candidates))])
  }

  function CandidateWithParts(parts: seq<Json>): Json {
    JObj([Field("content", JObj([Field("parts", JArr(parts))]))])
  }

  function TextPart(t: string): Json {
    JObj([Field("text", JStr(t))])
  }

  /** Only the first part of the first candidate is read: later parts and candidates never matter. */
  lemma OnlyFirstPartOfFirstCandidate(t: string, moreParts: seq<Json>, moreCandidates: seq<Json>)
    requires t != ""
    ensures FirstPartText(Record([CandidateWithParts([TextPart(t)] + moreParts)] + moreCandidates)) == Found(t)
  {
    var c := CandidateWithParts([TextPart(t)] + moreParts);
    assert First(JArr([c] + moreCandidates)) == Some(c);
    assert First(JArr([TextPart(t)] + moreParts)) == Some(TextPart(t));
  }

  /** An empty first text hides a non-empty text in a later part: the walk does not look further. */
  lemma EmptyFirstPartHidesLaterParts(t: string)
    ensures FirstPartText(Record([CandidateWithParts([TextPart(""), TextPart(t)])])) == NoText
  {
    var c := CandidateWithParts([TextPart(""), TextPart(t)]);
    assert First(JArr([c])) == Some(c);
    assert First(JArr([TextPart(""), TextPart(t)])) == Some(TextPart(""));
  }
}
