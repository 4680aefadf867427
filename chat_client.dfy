/** The public page's chat box (`sendChat`, src/public/js/app.js:222-270):
    the text it sends to the assistant and the counter that makes every
    query after the first answered one a strict one. The request itself, the
    transcript and the markup are left out; whether the request is answered
    is a parameter. */
module ChatClient {
  import opened Wrappers
  import opened Strings
  import opened TextSafety

  /** The longest message the page sends. */
  const MaxChatLength := 1000

  /** `sanitizeInput(chatText.value.trim()).slice(0, 1000)`. */
  function ChatText(raw: string): (text: string)
    ensures |text| <= MaxChatLength
    ensures '<' !in text && '>' !in text
    ensures text <= SanitizeInput(Trim(raw))
    ensures |SanitizeInput(Trim(raw))| <= MaxChatLength ==> text == SanitizeInput(Trim(raw))
    ensures |SanitizeInput(Trim(raw))| > MaxChatLength ==> text == SanitizeInput(Trim(raw))[..MaxChatLength]
  {
    SliceTo(SanitizeInput(Trim(raw)), MaxChatLength)
  }

  /** Sanitising leaves nothing exactly when the text holds only angle
      brackets. */
  lemma {:induction false} SanitizeEmpty(value: string)
    ensures SanitizeInput(value) == [] <==> forall k :: 0 <= k < |value| ==> IsAngle(value[k])
  {
    if value != [] {
      SanitizeEmpty(value[1..]);
      if IsAngle(value[0]) {
        forall k | 0 < k < |value|
          ensures value[k] == value[1..][k - 1]
        {
        }
      } else {
        assert SanitizeInput(value) == [value[0]] + SanitizeInput(value[1..]);
      }
    }
  }

  /** Nothing is sent exactly when the trimmed text is made only of angle
      brackets (an empty or blank box among them). */
  lemma ChatTextEmpty(raw: string)
    ensures ChatText(raw) == "" <==> forall k :: 0 <= k < |Trim(raw)| ==> IsAngle(Trim(raw)[k])
  {
    SanitizeEmpty(Trim(raw));
  }

  /** The body posted to `/api/ai/chat`. */
  datatype ChatRequest = ChatRequest(message: string, strictTipo: bool)

  /** The request a box holding `raw` produces after `count` answered
      queries: none for an empty text. */
  function RequestFor(raw: string, count: nat): (r: Option<ChatRequest>)
    ensures r.None? <==> ChatText(raw) == ""
    ensures r.Some? ==> r.value.message == ChatText(raw) && (r.value.strictTipo <==> count > 0)
  {
    var text := ChatText(raw);
    if text == "" then None else Some(ChatRequest(text, count > 0))
  }

  /** The chat box and the page's `aiQueryCount`. */
  class ChatSession {
    var aiQueryCount: nat
    var draft: string

    /** The page loads with no query made and an empty box. */
    constructor ()
      ensures aiQueryCount == 0 && draft == ""
    {
      aiQueryCount := 0;
      draft := "";
    }

    /** The user types into the box. */
    method Type(value: string)
      modifies this
      ensures draft == value && aiQueryCount == old(aiQueryCount)
    {
      draft := value;
    }

    /** `sendChat`: an empty text sends nothing; otherwise the request goes
        out, strict after the first answered query. Only when it is
        answered does the counter grow and the box clear: a failed request
        throws before either. */
    method SendChat(answered: bool) returns (request: Option<ChatRequest>)
      modifies this
      ensures request == RequestFor(old(draft), old(aiQueryCount))
      ensures aiQueryCount == if request.Some? && answered then old(aiQueryCount) + 1 else old(aiQueryCount)
      ensures draft == if request.Some? && answered then "" else old(draft)
    {
      var text := ChatText(draft);
      if text == "" {
        return None;
      }
      request := Some(ChatRequest(text, aiQueryCount > 0));
      if answered {
        aiQueryCount := aiQueryCount + 1;
        draft := "";
      }
    }
  }

  /** Over a run of sends, the counter is the number of answered requests. */
  function AnsweredCount(sends: seq<(string, bool)>): (n: nat)
    ensures n <= |sends|
  {
    if sends == [] then 0
    else AnsweredCount(sends[..|sends| - 1])
         + (if RequestFor(sends[|sends| - 1].0, 0).Some? && sends[|sends| - 1].1 then 1 else 0)
  }

  /** The requests a run of sends produces, from a fresh page. */
  function Requests(sends: seq<(string, bool)>): (rs: seq<Option<ChatRequest>>)
    ensures |rs| == |sends|
  {
    if sends == [] then []
    else Requests(sends[..|sends| - 1])
         + [RequestFor(sends[|sends| - 1].0, AnsweredCount(sends[..|sends| - 1]))]
  }

  /** A request is non-strict exactly when no earlier one was answered. */
  lemma {:induction false} StrictAfterFirstAnswer(sends: seq<(string, bool)>, k: nat)
    requires k < |sends| && Requests(sends)[k].Some?
    ensures !Requests(sends)[k].value.strictTipo <==> AnsweredCount(sends[..k]) == 0
  {
    if k < |sends| - 1 {
      assert Requests(sends)[k] == Requests(sends[..|sends| - 1])[k];
      StrictAfterFirstAnswer(sends[..|sends| - 1], k);
      assert sends[..|sends| - 1][..k] == sends[..k];
    } else {
      assert sends[..|sends| - 1] == sends[..k];
    }
  }
}
