/** The request handler of the serverless function
    `supabase/functions/generate-summary/index.ts`, as a pure function from
    the configured key, the parsed request and what the upstream call
    produced to the response it sends. */
module GenerateSummary {
  import opened Wrappers
  import opened Text
  import opened Upstream

  /** A JSON value of the request's `text` property: a string or anything else. */
  datatype JsValue = JsString(s: string) | JsNonString

  /** The incoming request: `req.json()` either yields an object or throws.
      A body that is not JSON, and a JSON `null` (whose destructuring throws
      a TypeError inside the same `try`), are both `MalformedJson`. */
  datatype Request = MalformedJson(error: string) | RequestJson(text: Option<JsValue>)

  /** What `fetch(...)` followed by `.json()` produced: a thrown error, or an
      HTTP status and the parsed body. */
  datatype UpstreamResult = UpstreamThrew(error: string) | UpstreamReplied(httpStatus: int, body: ReplyBody)

  /** The JSON body of the response. */
  datatype Payload = SummaryPayload(summary: string) | ErrorPayload(error: string)

  /** The response, and the prompt sent upstream if the upstream call was made. */
  datatype Response = Response(status: int, payload: Payload, sentPrompt: Option<string>)

  const PromptPrefix: string := "Summarize this text in 3-5 sentences. Respond ONLY with the summary:\n\n"

  /** `error.message || "Unknown error occurred"` in the catch block. */
  function CaughtMessage(error: string): string {
    if error == "" then "Unknown error occurred" else error
  }

  /** `!text || typeof text !== "string"` does not reject it. */
  predicate ValidText(text: Option<JsValue>) {
    text.Some? && text.value.JsString? && text.value.s != ""
  }

  /** The handler. A missing or empty key is rejected with 500 before the
      request is read or anything is sent; an absent, empty or non-string
      `text` with 400; the upstream body then goes through the field chain,
      and the winning field is trimmed only after it was chosen. The upstream
      HTTP status is never looked at. */
  function Handle(apiKey: Option<string>, req: Request, upstream: UpstreamResult): (r: Response)
    ensures !Truthy(apiKey) ==> r == Response(500, ErrorPayload("API key not configured"), None)
    ensures Truthy(apiKey) && req.RequestJson? && !ValidText(req.text) ==>
              r == Response(400, ErrorPayload("Invalid text provided"), None)
    ensures r.sentPrompt.Some? <==> Truthy(apiKey) && req.RequestJson? && ValidText(req.text)
    ensures r.sentPrompt.Some? ==> r.sentPrompt.value == PromptPrefix + req.text.value.s
    ensures r.status == 200 <==> r.sentPrompt.Some? && upstream.UpstreamReplied? && PickField(upstream.body).Some?
    ensures r.status == 200 ==> r.payload == SummaryPayload(Trim(PickField(upstream.body).value))
    ensures r.status != 200 ==> r.payload.ErrorPayload? && r.status in {400, 500}
    ensures Truthy(apiKey) && req.MalformedJson? ==> r == Response(500, ErrorPayload(CaughtMessage(req.error)), None)
    ensures r.sentPrompt.Some? && upstream.UpstreamThrew? ==>
              r == Response(500, ErrorPayload(CaughtMessage(upstream.error)), r.sentPrompt)
    ensures r.sentPrompt.Some? && upstream.UpstreamReplied? && PickField(upstream.body).None? ==>
              r == Response(500, ErrorPayload(NoSummaryMessage), r.sentPrompt)
  {
    if !Truthy(apiKey) then Response(500, ErrorPayload("API key not configured"), None)
    else
      match req
      case MalformedJson(e) => Response(500, ErrorPayload(CaughtMessage(e)), None)
      case RequestJson(text) =>
        if !ValidText(text) then Response(400, ErrorPayload("Invalid text provided"), None)
        else
          var prompt := Some(PromptPrefix + text.value.s);
          match upstream
          case UpstreamThrew(e) => Response(500, ErrorPayload(CaughtMessage(e)), prompt)
          case UpstreamReplied(_, body) =>
            match PickField(body)
            case Some(raw) => Response(200, SummaryPayload(Trim(raw)), prompt)
            case None => Response(500, ErrorPayload(NoSummaryMessage), prompt)
  }

  /** The reply does not depend on the upstream HTTP status. */
  lemma IgnoresUpstreamStatus(apiKey: Option<string>, req: Request, s1: int, s2: int, body: ReplyBody)
    ensures Handle(apiKey, req, UpstreamReplied(s1, body)) == Handle(apiKey, req, UpstreamReplied(s2, body))
  {
  }

  /** Field precedence: a truthy first-choice content wins over `summary`
      and `content`; otherwise `summary` wins over `content`; with none of
      them the reply is 500 "No summary received from Euron AI". */
  lemma FieldPrecedence(apiKey: Option<string>, text: string, status: int, body: ReplyBody)
    requires Truthy(apiKey) && text != ""
    ensures var r := Handle(apiKey, RequestJson(Some(JsString(text))), UpstreamReplied(status, body));
      && (Truthy(FirstChoiceContent(body)) ==>
            r.status == 200 && r.payload.summary == Trim(FirstChoiceContent(body).value))
      && (!Truthy(FirstChoiceContent(body)) && Truthy(body.summary) ==>
            r.status == 200 && r.payload.summary == Trim(body.summary.value))
      && (!Truthy(FirstChoiceContent(body)) && !Truthy(body.summary) && Truthy(body.content) ==>
            r.status == 200 && r.payload.summary == Trim(body.content.value))
      && (!Truthy(FirstChoiceContent(body)) && !Truthy(body.summary) && !Truthy(body.content) ==>
            r == Response(500, ErrorPayload(NoSummaryMessage), r.sentPrompt))
  {
  }

  /** Emptiness is checked before trimming: a whitespace-only first-choice
      content is accepted and yields 200 with an empty summary, whatever
      usable `summary` or `content` field follows it. */
  lemma BlankChoiceGivesEmptySummary(apiKey: string, text: string, status: int, body: ReplyBody)
    requires apiKey != "" && text != ""
    requires Truthy(FirstChoiceContent(body)) && AllWhitespace(FirstChoiceContent(body).value)
    ensures Handle(Some(apiKey), RequestJson(Some(JsString(text))), UpstreamReplied(status, body))
              == Response(200, SummaryPayload(""), Some(PromptPrefix + text))
  {
  }
}
