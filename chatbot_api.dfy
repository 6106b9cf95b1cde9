/** The error handling of the assistant's API client (src/utils/chatbotApi.ts): how the catch
    block of `callGeminiAPI` turns a thrown value into the reply shown in the chat. */
module ChatbotApi {
  import opened Wrappers
  import Text

  /** A thrown value, as far as the catch block inspects it: an axios error (its `code`, `name`,
      the status of its `response` if any, whether a `request` was made, and its `message`), any
      other `Error` (its `message`), or a value that is not an `Error` at all. */
  datatype Thrown =
    | AxiosError(code: Option<string>, name: string, responseStatus: Option<nat>, hasRequest: bool, message: string)
    | PlainError(message: string)
    | NotAnError

  /** `ChatbotResponse`: the text to show, and an optional error detail. */
  datatype ChatbotResponse = ChatbotResponse(result: string, error: Option<string>)

  /** The apology most of the texts open with. */
  const Sorry := "죄송합니다. "

  const TimeoutMessage := Sorry + "응답 시간이 초과되었습니다. 잠시 후 다시 시도해 주세요."
  const NotFoundMessage := Sorry + "챗봇 서비스를 일시적으로 사용할 수 없습니다. 잠시 후 다시 시도해 주세요."
  const ServerErrorMessage := Sorry + "서버 오류가 발생했습니다. 잠시 후 다시 시도해 주세요."
  const UnauthorizedMessage := "인증이 필요합니다. 로그인 후 다시 시도해 주세요."
  const StatusMessagePrefix := "서버 오류가 발생했습니다. ("
  const NetworkMessage := Sorry + "네트워크 연결을 확인해 주세요."
  const GenericMessage := Sorry + "일시적인 오류가 발생했습니다. 잠시 후 다시 시도해 주세요."

  /** `서버 오류가 발생했습니다. (${status})`. */
  function StatusMessage(status: nat): string {
    StatusMessagePrefix + Text.NatToString(status) + ")"
  }

  predicate IsTimeout(e: Thrown) {
    e.AxiosError? && (e.code == Some("ECONNABORTED") || e.name == "AbortError")
  }

  /** The cascade of the catch block. */
  function CatchReply(e: Thrown): (r: ChatbotResponse) {
    if e.AxiosError? && IsTimeout(e) then ChatbotResponse(TimeoutMessage, None)
    else if e.AxiosError? && e.responseStatus.Some? then
      var status := e.responseStatus.value;
      if status == 404 then ChatbotResponse(NotFoundMessage, None)
      else if status == 500 then ChatbotResponse(ServerErrorMessage, None)
      else if status == 401 then ChatbotResponse(UnauthorizedMessage, None)
      else ChatbotResponse(StatusMessage(status), None)
    else if e.AxiosError? && e.hasRequest then ChatbotResponse(NetworkMessage, None)
    else ChatbotResponse(GenericMessage, Some(if e.NotAnError? then "Unknown error" else e.message))
  }

  /** A timeout is recognised before the response or the request is looked at. */
  lemma TimeoutComesFirst(e: Thrown, status: Option<nat>, hasRequest: bool)
    requires IsTimeout(e)
    ensures CatchReply(e) == ChatbotResponse(TimeoutMessage, None)
    ensures CatchReply(e.(responseStatus := status, hasRequest := hasRequest)) == CatchReply(e)
  {
  }

  /** The reply for an error response depends only on its status, and distinct statuses get
      distinct texts. */
  lemma StatusMessagesDistinct(e1: Thrown, e2: Thrown)
    requires e1.AxiosError? && !IsTimeout(e1) && e1.responseStatus.Some?
    requires e2.AxiosError? && !IsTimeout(e2) && e2.responseStatus.Some?
    ensures CatchReply(e1).result == CatchReply(e2).result <==> e1.responseStatus == e2.responseStatus
  {
    var s1, s2 := e1.responseStatus.value, e2.responseStatus.value;
    FixedMessagesDiffer();
    StatusMessageShape(s1);
    StatusMessageShape(s2);
    if CatchReply(e1).result == CatchReply(e2).result && s1 != s2 {
      if s1 !in {404, 500, 401} && s2 !in {404, 500, 401} {
        StatusMessageInjective(s1, s2);
      }
    }
  }

  /** The three fixed status texts differ from each other, and their first characters differ
      from that of every embedded-status text. */
  lemma FixedMessagesDiffer()
    ensures NotFoundMessage != ServerErrorMessage && NotFoundMessage != UnauthorizedMessage &&
            ServerErrorMessage != UnauthorizedMessage
    ensures NotFoundMessage[0] == '죄' && ServerErrorMessage[0] == '죄' && UnauthorizedMessage[0] == '인'
  {
  }

  lemma StatusMessageShape(status: nat)
    ensures |StatusMessage(status)| > |StatusMessagePrefix| + 1
    ensures StatusMessage(status)[0] == '서'
  {
  }

  /** The embedded status can be read back from the text. */
  lemma StatusMessageRoundTrip(status: nat)
    ensures var m := StatusMessage(status);
      Text.StartsWith(m, StatusMessagePrefix) && m[|m| - 1] == ')' &&
      var digits := m[|StatusMessagePrefix|..|m| - 1];
      Text.AllDigits(digits) && Text.DecimalValue(digits) == status
  {
    var m := StatusMessage(status);
    assert m[|StatusMessagePrefix|..|m| - 1] == Text.NatToString(status);
    Text.DecimalRoundTrip(status);
  }

  lemma StatusMessageInjective(s1: nat, s2: nat)
    requires StatusMessage(s1) == StatusMessage(s2)
    ensures s1 == s2
  {
    StatusMessageRoundTrip(s1);
    StatusMessageRoundTrip(s2);
  }

  /** A response with a status other than 404, 500 and 401 shows that status. */
  lemma OtherStatusEmbedded(e: Thrown)
    requires e.AxiosError? && !IsTimeout(e) && e.responseStatus.Some?
    requires e.responseStatus.value !in {404, 500, 401}
    ensures CatchReply(e) == ChatbotResponse(StatusMessage(e.responseStatus.value), None)
  {
  }

  /** Only the last, generic branch fills in `error`: with the thrown `Error`'s message, or
      "Unknown error" for a value that is not an `Error`. */
  lemma ErrorFieldOnlyWhenGeneric(e: Thrown)
    ensures CatchReply(e).error.Some? <==>
      !(e.AxiosError? && (IsTimeout(e) || e.responseStatus.Some? || e.hasRequest))
    ensures CatchReply(e).error.Some? ==>
      CatchReply(e).result == GenericMessage &&
      CatchReply(e).error.value == (if e.NotAnError? then "Unknown error" else e.message)
    ensures e.AxiosError? && !IsTimeout(e) && e.responseStatus.None? && e.hasRequest ==>
      CatchReply(e) == ChatbotResponse(NetworkMessage, None)
  {
  }
}
