/** The parsed body of a chat-completion reply, and the field-precedence chain
    that both the serverless `generate-summary` function and the note card
    apply to it: `choices[0].message.content`, then `summary`, then
    `content`, each taken only when truthy. */
module Upstream {
  import opened Wrappers
  import opened Text

  /** What both the serverless function and the card report when the chain
      finds no summary. */
  const NoSummaryMessage: string := "No summary received from Euron AI"

  /** `{ content?: string }` */
  datatype ChatMessage = ChatMessage(content: Option<string>)

  /** `{ message?: ChatMessage }` */
  datatype Choice = Choice(message: Option<ChatMessage>)

  /** The fields of the reply body the chain reads. Values the chain would
      treat as non-strings are not modelled: a present field is a string. */
  datatype ReplyBody = ReplyBody(choices: Option<seq<Choice>>, summary: Option<string>, content: Option<string>)

  /** `data.choices[0]?.message?.content` (absent when `choices` is absent or
      empty). */
  function FirstChoiceContent(b: ReplyBody): (r: Option<string>)
    ensures b.choices.None? || b.choices.value == [] ==> r.None?
    ensures b.choices.Some? && |b.choices.value| > 0 && b.choices.value[0].message.Some? ==>
              r == b.choices.value[0].message.value.content
    ensures r.Some? ==> b.choices.Some? && |b.choices.value| > 0 &&
                        b.choices.value[0].message == Some(ChatMessage(r))
  {
    if b.choices.Some? && |b.choices.value| > 0 && b.choices.value[0].message.Some?
    then b.choices.value[0].message.value.content
    else None
  }

  /** The raw (untrimmed) value of the first truthy field in the chain. It is
      chosen BEFORE trimming, so a whitespace-only value wins over later
      fields. */
  function PickField(b: ReplyBody): (r: Option<string>)
    ensures r.Some? <==> Truthy(FirstChoiceContent(b)) || Truthy(b.summary) || Truthy(b.content)
    ensures r.Some? ==> r.value != ""
    ensures Truthy(FirstChoiceContent(b)) ==> r == FirstChoiceContent(b)
    ensures !Truthy(FirstChoiceContent(b)) && Truthy(b.summary) ==> r == b.summary
    ensures !Truthy(FirstChoiceContent(b)) && !Truthy(b.summary) && Truthy(b.content) ==> r == b.content
  {
    if Truthy(FirstChoiceContent(b)) then FirstChoiceContent(b)
    else if Truthy(b.summary) then b.summary
    else if Truthy(b.content) then b.content
    else None
  }
}
