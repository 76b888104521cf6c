/**
 * `extractTextFromResponse`, identical in app/api/optimize-and-generate/route.js and
 * app/api/optimize-and-edit/route.js: the optimized prompt of a non-streaming Gemini reply is
 * the first candidate that has any non-empty part texts, those texts joined and trimmed.
 */
module StaticExtract {
  import opened Wrappers
  import opened Strings
  import opened Json
  import opened Candidates

  /** The extracted text, or the `TypeError` a `null` candidate or part raises. */
  datatype Extraction = Extracted(text: string) | Raised

  /** What one candidate contributes to the scan. */
  datatype Outcome = Throws | Skip | Wins(text: string)

  /**
   * `part.text` read by lines 32-34: a `null` part, or a truthy `text` that is not a string
   * (its `substring` is not a function), throws; a non-empty string is kept.
   */
  function PartText(part: Json): (r: Lookup)
    ensures r.Found? ==> r.text != ""
  {
    if part == JNull then Threw
    else
      match Get(part, "text")
      case Some(JStr(t)) => if t != "" then Found(t) else NoText
      case Some(v) => if Truthy(v) then Threw else NoText
      case None => NoText
  }

  /** The `texts` array of one candidate, or `None` when reading some part throws. */
  function PartTexts(parts: seq<Json>): (r: Option<seq<string>>)
    ensures r.None? <==> exists i :: 0 <= i < |parts| && PartText(parts[i]).Threw?
    ensures r.Some? ==> forall i :: 0 <= i < |r.value| ==> r.value[i] != ""
  {
    if |parts| == 0 then Some([])
    else
      var init := PartTexts(parts[..|parts| - 1]);
      var last := parts[|parts| - 1];
      assert forall i :: 0 <= i < |parts| - 1 ==> parts[..|parts| - 1][i] == parts[i];
      if init.None? then None
      else
        match PartText(last)
        case Threw => None
        case Found(t) => Some(init.value + [t])
        case NoText => init
  }

  /** Lines 24-42 for one candidate. */
  function CandidateOutcome(candidate: Json): Outcome {
    if candidate == JNull then Throws
    else
      var content := Get(candidate, "content");
      if !Present(content) then Skip
      else
        match Get(content.value, "parts")
        case Some(JArr(parts)) =>
          (match PartTexts(parts)
           case None => Throws
           case Some(texts) => if |texts| > 0 then Wins(Trim(Concat(texts))) else Skip)
        case _ => Skip
  }

  /** The `for` loop over the candidates: the first that throws or wins decides. */
  function ScanCandidates(candidates: seq<Json>): Extraction {
    if |candidates| == 0 then Extracted("")
    else
      match CandidateOutcome(candidates[0])
      case Throws => Raised
      case Wins(t) => Extracted(t)
      case Skip => ScanCandidates(candidates[1..])
  }

  /** The whole function: a falsy reply or one without a `candidates` array gives `""`. */
  function ExtractText(response: Json): Extraction {
    if !Truthy(response) then Extracted("")
    else
      match Get(response, "candidates")
      case Some(JArr(candidates)) => ScanCandidates(candidates)
      case _ => Extracted("")
  }

  /** The inner `for (const part of candidate.content.parts)` loop. */
  method CollectTexts(parts: seq<Json>) returns (r: Option<seq<string>>)
    ensures r == PartTexts(parts)
  {
    var texts: seq<string> := [];
    var i := 0;
    while i < |parts|
      invariant 0 <= i <= |parts|
      invariant PartTexts(parts[..i]) == Some(texts)
    {
      assert parts[..i + 1][..i] == parts[..i];
      var t := PartText(parts[i]);
      if t.Threw? {
        assert parts[..i + 1][i] == parts[i];
        assert parts == parts[..i + 1] + parts[i + 1..];
        return None;
      }
      if t.Found? {
        texts := texts + [t.text];
      }
      i := i + 1;
    }
    assert parts[..i] == parts;
    return Some(texts);
  }

  /** Lines 11-50 of app/api/optimize-and-generate/route.js, with both loops. */
  method ExtractTextFromResponse(response: Json) returns (r: Extraction)
    ensures r == ExtractText(response)
  {
    if !Truthy(response) {
      return Extracted("");
    }
    var candidates := Get(response, "candidates");
    if !(candidates.Some? && candidates.value.JArr?) {
      return Extracted("");
    }
    var items := candidates.value.items;
    var i := 0;
    while i < |items|
      invariant 0 <= i <= |items|
      invariant ScanCandidates(items) == ScanCandidates(items[i..])
    {
      var candidate := items[i];
      assert items[i..][0] == candidate && items[i..][1..] == items[i + 1..];
      if candidate == JNull {
        return Raised;
      }
      var content := Get(candidate, "content");
      if Present(content) {
        var parts := Get(content.value, "parts");
        if parts.Some? && parts.value.JArr? {
          var texts := CollectTexts(parts.value.items);
          if texts.None? {
            return Raised;
          }
          if |texts.value| > 0 {
            return Extracted(Trim(Concat(texts.value)));
          }
        }
      }
      i := i + 1;
    }
    return Extracted("");
  }

  /** Whatever is extracted has no whitespace at either end. */
  lemma ExtractedIsTrimmed(response: Json)
    ensures ExtractText(response).Extracted? ==> Clean(ExtractText(response).text)
  {
    if Truthy(response) && Get(response, "candidates").Some? && Get(response, "candidates").value.JArr? {
      ScannedIsTrimmed(Get(response, "candidates").value.items);
    }
  }

  lemma {:induction false} ScannedIsTrimmed(candidates: seq<Json>)
    ensures ScanCandidates(candidates).Extracted? ==> Clean(ScanCandidates(candidates).text)
  {
    if |candidates| > 0 {
      match CandidateOutcome(candidates[0])
      case Skip => ScannedIsTrimmed(candidates[1..]);
      case Wins(t) => WinnerIsTrimmed(candidates[0]);
      case Throws =>
    }
  }

  lemma WinnerIsTrimmed(candidate: Json)
    requires CandidateOutcome(candidate).Wins?
    ensures Clean(CandidateOutcome(candidate).text)
  {
    var parts := Get(Get(candidate, "content").value, "parts").value.items;
    TrimSpec(Concat(PartTexts(parts).value));
  }

  /**
   * The first candidate with any text decides, whatever follows it, once every candidate
   * before it was skipped without throwing.
   */
  lemma {:induction false} FirstWinnerDecides(before: seq<Json>, winner: Json, after: seq<Json>)
    requires forall i :: 0 <= i < |before| ==> CandidateOutcome(before[i]) == Skip
    requires CandidateOutcome(winner).Wins?
    ensures ScanCandidates(before + [winner] + after) == Extracted(CandidateOutcome(winner).text)
  {
    if |before| == 0 {
      assert (before + [winner] + after)[0] == winner;
    } else {
      var all := before + [winner] + after;
      assert all[0] == before[0];
      assert all[1..] == before[1..] + [winner] + after;
      FirstWinnerDecides(before[1..], winner, after);
    }
  }

  /** The scan throws exactly when some candidate throws and every one before it was skipped. */
  lemma {:induction false} ThrowsExactlyWhenReached(candidates: seq<Json>)
    ensures ScanCandidates(candidates) == Raised <==>
      exists k :: 0 <= k < |candidates| && CandidateOutcome(candidates[k]) == Throws
        && forall i :: 0 <= i < k ==> CandidateOutcome(candidates[i]) == Skip
  {
    if |candidates| > 0 {
      ThrowsExactlyWhenReached(candidates[1..]);
      var head := CandidateOutcome(candidates[0]);
      if head == Skip {
        if ScanCandidates(candidates[1..]) == Raised {
          var k :| 0 <= k < |candidates| - 1 && CandidateOutcome(candidates[1..][k]) == Throws
            && forall i :: 0 <= i < k ==> CandidateOutcome(candidates[1..][i]) == Skip;
          assert forall i :: 0 <= i < k + 1 ==> CandidateOutcome(candidates[i]) == Skip by {
            forall i | 0 <= i < k + 1
              ensures CandidateOutcome(candidates[i]) == Skip
            {
              if i > 0 {
                assert candidates[i] == candidates[1..][i - 1];
              }
            }
          }
          assert CandidateOutcome(candidates[k + 1]) == Throws;
        } else {
          forall k | 0 <= k < |candidates| && CandidateOutcome(candidates[k]) == Throws
            ensures exists i :: 0 <= i < k && CandidateOutcome(candidates[i]) != Skip
          {
            assert k > 0;
            assert candidates[k] == candidates[1..][k - 1];
            var i :| 0 <= i < k - 1 && CandidateOutcome(candidates[1..][i]) != Skip;
            assert candidates[i + 1] == candidates[1..][i];
          }
        }
      } else if head == Throws {
        assert CandidateOutcome(candidates[0]) == Throws;
      } else {
        assert CandidateOutcome(candidates[0]) != Skip;
      }
    }
  }

  /** With no candidate that throws or has text, the result is `""`. */
  lemma {:induction false} NoWinnerGivesEmpty(candidates: seq<Json>)
    requires forall i :: 0 <= i < |candidates| ==> CandidateOutcome(candidates[i]) == Skip
    ensures ScanCandidates(candidates) == Extracted("")
  {
    if |candidates| > 0 {
      NoWinnerGivesEmpty(candidates[1..]);
    }
  }

  /**
   * A candidate whose texts are only whitespace still wins: the result is `""` and a later
   * candidate with real text is never looked at.
   */
  lemma BlankWinnerHidesLaterCandidates(later: seq<Json>)
    ensures ScanCandidates([CandidateWithParts([TextPart(" ")])] + later) == Extracted("")
  {
    var c := CandidateWithParts([TextPart(" ")]);
    var parts := [TextPart(" ")];
    assert parts[..0] == [];
    assert PartText(TextPart(" ")) == Found(" ");
    assert PartTexts(parts[..0]) == Some([]);
    assert [] + [" "] == [" "];
    assert PartTexts(parts) == Some([" "]);
    assert Concat([" "]) == " " by {
      assert [" "][..0] == [];
    }
    assert IsJsWhitespace(' ');
    assert CandidateOutcome(c) == Wins("");
    assert ([c] + later)[0] == c;
  }

  /** A falsy reply, or one whose `candidates` is missing or not an array, gives `""`. */
  lemma NoCandidatesGivesEmpty(response: Json)
    requires !Truthy(response) || !(Get(response, "candidates").Some? && Get(response, "candidates").value.JArr?)
    ensures ExtractText(response) == Extracted("")
  {
  }
}
