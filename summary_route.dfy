/** GET /api/ai-summary: validate `q`, ask the provider for a completion
    about the trimmed query, and parse the completion into a summary and key
    points. */
module SummaryRoute {
  import opened Options
  import opened JsText
  import opened Extraction
  import opened Api

  datatype SummaryBody =
    | SummarySucceeded(query: string, data: AISummary)
    | SummaryFailed(error: string)

  /** The completion request; only its user message, the one that depends on
      the query, is modelled. */
  datatype CompletionRequest = CompletionRequest(prompt: string)

  const NoResponse := "No response from AI"
  const SummaryFailedText := "Failed to generate AI summary"

  const PromptHead := "Provide insights about this search query: \""
  /** The rest of the user message: a sample of the reply format, which is
      exactly what FormatReply writes. */
  const PromptTail := "\"\n\nFormat your response as:\n\n"
                      + FormatReply("[Your summary here]", ["[Point 1]", "[Point 2]", "[Point 3]"])

  /** The user message for a trimmed query: the query quoted, then the
      format sample. */
  function UserPrompt(query: string): (prompt: string)
    ensures |prompt| == |PromptHead| + |query| + |PromptTail|
    ensures prompt[..|PromptHead|] == PromptHead
    ensures prompt[|PromptHead|..|PromptHead| + |query|] == query
    ensures prompt[|PromptHead| + |query|..] == PromptTail
  {
    PromptHead + query + PromptTail
  }

  /** Different queries give different prompts. */
  lemma UserPromptInjective(a: string, b: string)
    requires UserPrompt(a) == UserPrompt(b)
    ensures a == b
  {
    assert |a| == |b|;
    assert a == UserPrompt(a)[|PromptHead|..|PromptHead| + |a|];
  }

  /** The handler, given what the completion call would produce (None when
      the completion has no content). An absent or empty completion is
      thrown as an Error and caught like any other failure. */
  function Handle(q: Option<string>, completion: Outcome<Option<string>>): (h: Handled<SummaryBody, CompletionRequest>)
    ensures h.call.None? <==> IsBlank(q)
    ensures IsBlank(q) ==> h.response == Response(400, SummaryFailed(QueryRequired))
    ensures h.call.Some? ==>
              h.call.value.prompt == UserPrompt(Trim(q.value)) && Trim(q.value) != []
    ensures h.response.status == 200 <==>
              !IsBlank(q) && completion.Returned? && completion.value.Some? && completion.value.value != []
    ensures h.response.status == 200 <==> h.response.body.SummarySucceeded?
    ensures h.response.status == 200 ==>
              h.response.body == SummarySucceeded(q.value, ExtractSummary(completion.value.value))
    ensures !IsBlank(q) && completion.Returned? && (completion.value.None? || completion.value.value == []) ==>
              h.response == Response(500, SummaryFailed(NoResponse))
    ensures !IsBlank(q) && completion.Threw? ==>
              h.response == Response(500, SummaryFailed(ErrorText(completion.error, SummaryFailedText)))
  {
    if IsBlank(q) then Handled(Response(400, SummaryFailed(QueryRequired)), None)
    else
      var call := CompletionRequest(UserPrompt(Trim(q.value)));
      var outcome: Outcome<string> :=
        match completion
        case Threw(e) => Threw(e)
        case Returned(content) =>
          if content.None? || content.value == [] then Threw(ErrorObject(NoResponse))
          else Returned(content.value);
      match outcome
      case Returned(response) =>
        Handled(Response(200, SummarySucceeded(q.value, ExtractSummary(response))), Some(call))
      case Threw(e) =>
        Handled(Response(500, SummaryFailed(ErrorText(e, SummaryFailedText))), Some(call))
  }

  /** When the provider answers in the format the prompt asks for, the route
      returns that summary and the first five of those points, with the
      query echoed as sent. */
  lemma AnswerInRequestedFormat(q: Option<string>, summary: string, points: seq<string>)
    requires !IsBlank(q)
    requires summary != [] && IsTrimmed(summary) && '\n' !in summary
    requires Absent(summary, KeyPointsMarker, true)
    requires |points| >= 1
    requires forall k :: 0 <= k < |points| ==> points[k] != [] && IsTrimmed(points[k]) && '\n' !in points[k]
    ensures Handle(q, Returned(Some(FormatReply(summary, points)))).response
            == Response(200, SummarySucceeded(q.value,
                 AISummary(summary, if |points| <= MaxKeyPoints then points else points[..MaxKeyPoints])))
  {
    FormatReplyRoundTrip(summary, points);
  }

  /** The sample reply shown in the prompt is itself read back exactly. */
  lemma PromptSampleParses(summary: string, points: seq<string>)
    requires summary == "[Your summary here]"
    requires points == ["[Point 1]", "[Point 2]", "[Point 3]"]
    ensures ExtractSummary(FormatReply(summary, points)) == AISummary(summary, points)
  {
    assert |summary| == 19 && summary[0] == '[' && summary[18] == ']';
    assert forall k :: 0 <= k < 19 ==> summary[k] != '\n' && summary[k] != 'k' && summary[k] != 'K';
    forall k | 0 <= k < |summary| ensures !SameChar(summary[k], KeyPointsMarker[0], true) {}
    NoMatchWithoutFirstChar(summary, KeyPointsMarker, 0, |summary|, true);
    assert forall k :: 0 <= k < 3 ==> points[k] != [] && IsTrimmed(points[k]) && '\n' !in points[k];
    FormatReplyRoundTrip(summary, points);
  }
}
