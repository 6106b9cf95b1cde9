/** The chat page (src/pages/ChatbotPage.tsx): the keyword-driven canned replies, the blank-input
    test, and the message list with its one-second reply timers. */
module ChatbotPage {
  import Text

  // ---------------------------------------------------------------------------------------
  // Blank input: `!inputText.trim()`
  // ---------------------------------------------------------------------------------------

  /** The characters `String.prototype.trim` strips: white space and line terminators. */
  predicate IsJsWhitespace(c: char) {
    c == '\t' || c == '\n' || c == '\U{B}' || c == '\U{C}' || c == '\r' || c == ' ' ||
    c == '\U{A0}' || c == '\U{1680}' || ('\U{2000}' <= c <= '\U{200A}') ||
    c == '\U{2028}' || c == '\U{2029}' || c == '\U{202F}' || c == '\U{205F}' ||
    c == '\U{3000}' || c == '\U{FEFF}'
  }

  /** Drops leading white space: the result is a suffix of `s`, everything dropped is white
      space, and the result does not start with white space. */
  function TrimStart(s: string): (r: string)
    ensures |r| <= |s| && r == s[|s| - |r|..]
    ensures forall i :: 0 <= i < |s| - |r| ==> IsJsWhitespace(s[i])
    ensures |r| > 0 ==> !IsJsWhitespace(r[0])
  {
    if |s| > 0 && IsJsWhitespace(s[0]) then TrimStart(s[1..]) else s
  }

  /** Drops trailing white space: the result is a prefix of `s`, everything dropped is white
      space, and the result does not end with white space. */
  function TrimEnd(s: string): (r: string)
    ensures |r| <= |s| && r == s[..|r|]
    ensures forall i :: |r| <= i < |s| ==> IsJsWhitespace(s[i])
    ensures |r| > 0 ==> !IsJsWhitespace(r[|r| - 1])
  {
    if |s| > 0 && IsJsWhitespace(s[|s| - 1]) then TrimEnd(s[..|s| - 1]) else s
  }

  /** `s.trim()`. */
  function Trim(s: string): string {
    TrimEnd(TrimStart(s))
  }

  /** `!s.trim()`: the trimmed string is empty. */
  predicate IsBlank(s: string) {
    Trim(s) == ""
  }

  /** A string is blank exactly when every character of it is white space. */
  lemma BlankIffAllWhitespace(s: string)
    ensures IsBlank(s) <==> forall i :: 0 <= i < |s| ==> IsJsWhitespace(s[i])
  {
    var t := TrimStart(s);
    if !IsBlank(s) {
      assert |t| > 0 && t[0] == s[|s| - |t|];
      assert !IsJsWhitespace(s[|s| - |t|]);
    }
  }

  // ---------------------------------------------------------------------------------------
  // Canned replies
  // ---------------------------------------------------------------------------------------

  const BookingReply := "예약에 대해 문의하시는군요! 언제 체크인하실 예정인가요? 몇 명이 투숙하실 예정인가요?"
  const PriceReply := "라온아띠 독채 풀빌라의 요금은 다음과 같습니다:\n\n평일: 200,000원/박\n주말: 250,000원/박\n성수기: 300,000원/박\n\n정확한 요금은 예약하시는 날짜에 따라 달라질 수 있습니다."
  const LocationReply := "라온아띠는 강원도 평창군 진부면에 위치해 있습니다. 평창역에서 차로 약 15분 거리이며, 진부면사무소 근처에서 \"라온아띠\" 간판을 찾으시면 됩니다."
  const FacilitiesReply := "라온아띠 독채 풀빌라는 다음과 같은 시설을 제공합니다:\n\n• 완비된 주방\n• BBQ 시설\n• 개인 수영장\n• 넓은 정원\n• 주차 공간\n• 무료 Wi-Fi\n• 에어컨/난방\n\n최대 15명까지 투숙 가능합니다."
  const CheckInReply := "체크인 시간: 오후 3시\n체크아웃 시간: 오전 11시\n\n조기 체크인이나 늦은 체크아웃이 필요하시면 사전에 문의해 주세요."
  const CancellationReply := "예약 취소 정책은 다음과 같습니다:\n\n• 7일 전 취소: 100% 환불\n• 3-7일 전 취소: 50% 환불\n• 3일 이내 취소: 환불 불가\n\n자세한 사항은 고객센터로 문의해 주세요."
  const PetsReply := "죄송합니다. 라온아띠는 반려동물 동반 투숙이 불가능합니다. 편안한 휴식을 위해 다른 고객님들의 이용에 방해가 되지 않도록 협조해 주시기 바랍니다."
  const ContactReply := "라온아띠 고객센터 연락처입니다:\n\n📞 전화: (010) 1234-5678\n📧 이메일: info@raonatti.com\n\n평일 오전 9시 ~ 오후 6시까지 문의 가능합니다."
  const FallbackReply := "죄송합니다. 질문을 정확히 이해하지 못했습니다. 예약, 가격, 위치, 시설, 체크인/아웃, 취소 정책 등에 대해 문의해 주시면 자세히 안내해 드리겠습니다."

  /** The topic a reply answers; `Unknown` gets the fallback text. */
  datatype Topic = Booking | Price | Location | Facilities | CheckIn | Cancellation | Pets | Contact | Unknown

  function ReplyText(topic: Topic): string {
    match topic
    case Booking => BookingReply
    case Price => PriceReply
    case Location => LocationReply
    case Facilities => FacilitiesReply
    case CheckIn => CheckInReply
    case Cancellation => CancellationReply
    case Pets => PetsReply
    case Contact => ContactReply
    case Unknown => FallbackReply
  }

  /** The tests of `getBotResponse`: the lower-cased input is checked against eight keyword
      groups in a fixed order, and the first group with a keyword in it picks the topic. */
  function BotTopic(userInput: string): Topic {
    TopicOfLowered(Text.ToLower(userInput))
  }

  /** The if-chain of `getBotResponse`, on the lower-cased input. */
  function TopicOfLowered(input: string): Topic {
    if Text.Contains(input, "예약") || Text.Contains(input, "예약하기") then Booking
    else if Text.Contains(input, "가격") || Text.Contains(input, "요금") || Text.Contains(input, "비용") then Price
    else if Text.Contains(input, "위치") || Text.Contains(input, "주소") || Text.Contains(input, "찾아오는 길") then Location
    else if Text.Contains(input, "시설") || Text.Contains(input, "편의시설") || Text.Contains(input, "어떤 시설") then Facilities
    else if Text.Contains(input, "체크인") || Text.Contains(input, "체크아웃") then CheckIn
    else if Text.Contains(input, "취소") || Text.Contains(input, "환불") then Cancellation
    else if Text.Contains(input, "반려동물") || Text.Contains(input, "강아지") || Text.Contains(input, "고양이") then Pets
    else if Text.Contains(input, "연락처") || Text.Contains(input, "전화번호") || Text.Contains(input, "문의") then Contact
    else Unknown
  }

  /** `getBotResponse`: the canned text of the input's topic. */
  function GetBotResponse(userInput: string): string {
    ReplyText(BotTopic(userInput))
  }

  const CannedReplies: seq<string> := [BookingReply, PriceReply, LocationReply, FacilitiesReply, CheckInReply,
                                        CancellationReply, PetsReply, ContactReply, FallbackReply]

  /** Every reply is one of the nine canned texts. */
  lemma BotResponseIsCanned(userInput: string)
    ensures GetBotResponse(userInput) in CannedReplies
  {
    var t := BotTopic(userInput);
    match t {
      case Booking => assert CannedReplies[0] == ReplyText(t);
      case Price => assert CannedReplies[1] == ReplyText(t);
      case Location => assert CannedReplies[2] == ReplyText(t);
      case Facilities => assert CannedReplies[3] == ReplyText(t);
      case CheckIn => assert CannedReplies[4] == ReplyText(t);
      case Cancellation => assert CannedReplies[5] == ReplyText(t);
      case Pets => assert CannedReplies[6] == ReplyText(t);
      case Contact => assert CannedReplies[7] == ReplyText(t);
      case Unknown => assert CannedReplies[8] == ReplyText(t);
    }
  }

  /** The reply table as data: a keyword group and its reply. */
  datatype Rule = Rule(keywords: seq<string>, topic: Topic)

  const Rules: seq<Rule> := [
    Rule(["예약", "예약하기"], Booking),
    Rule(["가격", "요금", "비용"], Price),
    Rule(["위치", "주소", "찾아오는 길"], Location),
    Rule(["시설", "편의시설", "어떤 시설"], Facilities),
    Rule(["체크인", "체크아웃"], CheckIn),
    Rule(["취소", "환불"], Cancellation),
    Rule(["반려동물", "강아지", "고양이"], Pets),
    Rule(["연락처", "전화번호", "문의"], Contact)
  ]

  /** Some keyword of the group occurs in `input`. */
  function AnyKeyword(input: string, keywords: seq<string>): bool {
    if |keywords| == 0 then false else Text.Contains(input, keywords[0]) || AnyKeyword(input, keywords[1..])
  }

  lemma {:induction false} AnyKeywordIff(input: string, keywords: seq<string>)
    ensures AnyKeyword(input, keywords) <==> exists k :: k in keywords && Text.Contains(input, k)
    decreases |keywords|
  {
    if |keywords| > 0 {
      AnyKeywordIff(input, keywords[1..]);
      if exists k :: k in keywords && Text.Contains(input, k) {
        var k :| k in keywords && Text.Contains(input, k);
        if k != keywords[0] {
          assert k in keywords[1..];
        }
      }
    }
  }

  lemma AnyKeyword2(input: string, a: string, b: string)
    ensures AnyKeyword(input, [a, b]) == (Text.Contains(input, a) || Text.Contains(input, b))
  {
    assert [a, b][1..] == [b];
    assert [b][1..] == [];
    assert AnyKeyword(input, []) == false;
    assert AnyKeyword(input, [b]) == (Text.Contains(input, b) || AnyKeyword(input, []));
  }

  lemma AnyKeyword3(input: string, a: string, b: string, c: string)
    ensures AnyKeyword(input, [a, b, c]) == (Text.Contains(input, a) || Text.Contains(input, b) || Text.Contains(input, c))
  {
    assert [a, b, c][1..] == [b, c];
    AnyKeyword2(input, b, c);
  }

  /** The topic of the first rule that matches, or `Unknown`. */
  function FirstMatch(rules: seq<Rule>, input: string): Topic {
    if |rules| == 0 then Unknown
    else if AnyKeyword(input, rules[0].keywords) then rules[0].topic
    else FirstMatch(rules[1..], input)
  }

  lemma FirstMatchAt(rules: seq<Rule>, k: nat, input: string)
    requires k < |rules|
    ensures FirstMatch(rules[k..], input) ==
      if AnyKeyword(input, rules[k].keywords) then rules[k].topic else FirstMatch(rules[k + 1..], input)
  {
    assert rules[k..][1..] == rules[k + 1..];
  }

  /** The chain of tests is the first-match reading of the reply table. */
  lemma GetBotResponseIsFirstMatch(userInput: string)
    ensures BotTopic(userInput) == FirstMatch(Rules, Text.ToLower(userInput))
  {
    var input := Text.ToLower(userInput);
    assert Rules[0..] == Rules && Rules[8..] == [];
    FirstMatchAt(Rules, 0, input);
    AnyKeyword2(input, "예약", "예약하기");
    if !AnyKeyword(input, Rules[0].keywords) {
      FirstMatchAt(Rules, 1, input);
      AnyKeyword3(input, "가격", "요금", "비용");
      if !AnyKeyword(input, Rules[1].keywords) {
        FirstMatchAt(Rules, 2, input);
        AnyKeyword3(input, "위치", "주소", "찾아오는 길");
        if !AnyKeyword(input, Rules[2].keywords) {
          FirstMatchAt(Rules, 3, input);
          AnyKeyword3(input, "시설", "편의시설", "어떤 시설");
          if !AnyKeyword(input, Rules[3].keywords) {
            FirstMatchAt(Rules, 4, input);
            AnyKeyword2(input, "체크인", "체크아웃");
            if !AnyKeyword(input, Rules[4].keywords) {
              FirstMatchAt(Rules, 5, input);
              AnyKeyword2(input, "취소", "환불");
              if !AnyKeyword(input, Rules[5].keywords) {
                FirstMatchAt(Rules, 6, input);
                AnyKeyword3(input, "반려동물", "강아지", "고양이");
                if !AnyKeyword(input, Rules[6].keywords) {
                  FirstMatchAt(Rules, 7, input);
                  AnyKeyword3(input, "연락처", "전화번호", "문의");
                }
              }
            }
          }
        }
      }
    }
  }

  /** With no rule for `Unknown`, `Unknown` comes back exactly when no rule matches. */
  lemma {:induction false} FirstMatchFallback(rules: seq<Rule>, input: string)
    requires forall i :: 0 <= i < |rules| ==> rules[i].topic != Unknown
    ensures FirstMatch(rules, input) == Unknown <==>
      forall i :: 0 <= i < |rules| ==> !AnyKeyword(input, rules[i].keywords)
    decreases |rules|
  {
    if |rules| > 0 {
      FirstMatchFallback(rules[1..], input);
      assert forall i :: 1 <= i < |rules| ==> rules[i] == rules[1..][i - 1];
    }
  }

  /** No keyword of any of `rules` occurs in `input`. */
  ghost predicate NoKeywordOccurs(rules: seq<Rule>, input: string) {
    forall i, k :: 0 <= i < |rules| && k in rules[i].keywords ==> !Text.Contains(input, k)
  }

  /** No rule matches exactly when no keyword of any rule occurs in the input. */
  lemma NoRuleMatches(rules: seq<Rule>, input: string)
    requires forall i :: 0 <= i < |rules| ==> rules[i].topic != Unknown
    ensures FirstMatch(rules, input) == Unknown <==> NoKeywordOccurs(rules, input)
  {
    FirstMatchFallback(rules, input);
    forall i | 0 <= i < |rules|
      ensures AnyKeyword(input, rules[i].keywords) <==> exists k :: k in rules[i].keywords && Text.Contains(input, k)
    {
      AnyKeywordIff(input, rules[i].keywords);
    }
    if FirstMatch(rules, input) == Unknown {
      forall i, k | 0 <= i < |rules| && k in rules[i].keywords ensures !Text.Contains(input, k) {
        assert !AnyKeyword(input, rules[i].keywords);
      }
    } else {
      var i :| 0 <= i < |rules| && AnyKeyword(input, rules[i].keywords);
      var k :| k in rules[i].keywords && Text.Contains(input, k);
    }
  }

  /** The fallback topic means that none of the keywords occurs in the lower-cased input. */
  lemma FallbackMeansNoKeyword(userInput: string)
    ensures BotTopic(userInput) == Unknown <==> NoKeywordOccurs(Rules, Text.ToLower(userInput))
  {
    GetBotResponseIsFirstMatch(userInput);
    NoRuleMatches(Rules, Text.ToLower(userInput));
  }

  /** The reply does not depend on the case of ASCII letters in the input. */
  lemma BotResponseIgnoresCase(userInput: string)
    ensures GetBotResponse(Text.ToUpper(userInput)) == GetBotResponse(userInput)
    ensures GetBotResponse(Text.ToLower(userInput)) == GetBotResponse(userInput)
  {
    Text.ToLowerOfToUpper(userInput);
    var lower := Text.ToLower(userInput);
    assert Text.ToLower(lower) == lower;
  }

  /** The longer keywords "예약하기", "편의시설" and "어떤 시설" contain the short ones, so
      only "예약" and "시설" decide their groups. */
  lemma RedundantKeywords(input: string)
    ensures Text.Contains(input, "예약하기") ==> Text.Contains(input, "예약")
    ensures Text.Contains(input, "편의시설") ==> Text.Contains(input, "시설")
    ensures Text.Contains(input, "어떤 시설") ==> Text.Contains(input, "시설")
  {
    if Text.Contains(input, "예약하기") {
      assert "예약하기" == "예약" + "하기";
      Text.ContainsPrefixOfOccurrence(input, "예약", "하기");
    }
    if Text.Contains(input, "편의시설") {
      assert "편의시설" == "편의" + "시설" + "";
      Text.ContainsInfixOfOccurrence(input, "편의", "시설", "");
    }
    if Text.Contains(input, "어떤 시설") {
      assert "어떤 시설" == "어떤 " + "시설" + "";
      Text.ContainsInfixOfOccurrence(input, "어떤 ", "시설", "");
    }
  }

  /** `c` is the first character of a keyword of one of the first `k` rules. */
  predicate StartsKeywordBefore(c: char, k: nat) {
    (k > 0 && c == '예') ||
    (k > 1 && (c == '가' || c == '요' || c == '비')) ||
    (k > 2 && (c == '위' || c == '주' || c == '찾')) ||
    (k > 3 && (c == '시' || c == '편' || c == '어')) ||
    (k > 4 && c == '체') ||
    (k > 5 && (c == '취' || c == '환')) ||
    (k > 6 && (c == '반' || c == '강' || c == '고'))
  }

  lemma NotContainsKeywordBefore(s: string, keyword: string, k: nat)
    requires |keyword| > 0 && StartsKeywordBefore(keyword[0], k)
    requires forall i :: 0 <= i < |s| ==> !StartsKeywordBefore(s[i], k)
    ensures !Text.Contains(s, keyword)
  {
    Text.NotContainsWithoutHead(s, keyword);
  }

  /** The first rule wins: an input whose lower-cased form contains the first keyword of rule
      `k`, and no character that starts a keyword of an earlier rule, gets rule `k`'s topic. */
  lemma TopicOfFirstMatchingRule(userInput: string, k: nat)
    requires k < |Rules|
    requires Text.Contains(Text.ToLower(userInput), Rules[k].keywords[0])
    requires forall i :: 0 <= i < |Text.ToLower(userInput)| ==> !StartsKeywordBefore(Text.ToLower(userInput)[i], k)
    ensures BotTopic(userInput) == Rules[k].topic
  {
    var s := Text.ToLower(userInput);
    if k > 0 {
      NotContainsKeywordBefore(s, "예약", k);
      NotContainsKeywordBefore(s, "예약하기", k);
    }
    if k > 1 {
      NotContainsKeywordBefore(s, "가격", k);
      NotContainsKeywordBefore(s, "요금", k);
      NotContainsKeywordBefore(s, "비용", k);
    }
    if k > 2 {
      NotContainsKeywordBefore(s, "위치", k);
      NotContainsKeywordBefore(s, "주소", k);
      NotContainsKeywordBefore(s, "찾아오는 길", k);
    }
    if k > 3 {
      NotContainsKeywordBefore(s, "시설", k);
      NotContainsKeywordBefore(s, "편의시설", k);
      NotContainsKeywordBefore(s, "어떤 시설", k);
    }
    if k > 4 {
      NotContainsKeywordBefore(s, "체크인", k);
      NotContainsKeywordBefore(s, "체크아웃", k);
    }
    if k > 5 {
      NotContainsKeywordBefore(s, "취소", k);
      NotContainsKeywordBefore(s, "환불", k);
    }
    if k > 6 {
      NotContainsKeywordBefore(s, "반려동물", k);
      NotContainsKeywordBefore(s, "강아지", k);
      NotContainsKeywordBefore(s, "고양이", k);
    }
  }

  /** "예약 취소" (cancel a booking) mentions a booking first in rule order, so it is answered
      with the booking reply, not the cancellation policy. */
  lemma CancelBookingGetsBookingReply()
    ensures BotTopic("예약 취소") == Booking
  {
    var q := "예약 취소";
    Text.ToLowerWithoutCapitals(q);
    assert "" + "예약" + " 취소" == q;
    Text.ContainsInfix("", "예약", " 취소");
    TopicOfFirstMatchingRule(q, 0);
  }

  // ---------------------------------------------------------------------------------------
  // Quick questions
  // ---------------------------------------------------------------------------------------

  const QuickQuestions: seq<string> := ["예약 문의", "가격 안내", "위치/교통", "시설 정보", "체크인/아웃", "취소 정책"]

  /** The quick question "예약 문의" gets the booking reply. */
  lemma BookingQuickQuestion()
    ensures BotTopic(QuickQuestions[0]) == Booking
  {
    var q := "예약 문의";
    assert QuickQuestions[0] == q;
    Text.ToLowerWithoutCapitals(q);
    assert "" + "예약" + " 문의" == q;
    Text.ContainsInfix("", "예약", " 문의");
    TopicOfFirstMatchingRule(q, 0);
  }

  /** The quick question "가격 안내" gets the price list. */
  lemma PriceQuickQuestion()
    ensures BotTopic(QuickQuestions[1]) == Price
  {
    var q := "가격 안내";
    assert QuickQuestions[1] == q;
    Text.ToLowerWithoutCapitals(q);
    assert "" + "가격" + " 안내" == q;
    Text.ContainsInfix("", "가격", " 안내");
    TopicOfFirstMatchingRule(q, 1);
  }

  /** The quick question "위치/교통" gets the directions. */
  lemma LocationQuickQuestion()
    ensures BotTopic(QuickQuestions[2]) == Location
  {
    var q := "위치/교통";
    assert QuickQuestions[2] == q;
    Text.ToLowerWithoutCapitals(q);
    assert "" + "위치" + "/교통" == q;
    Text.ContainsInfix("", "위치", "/교통");
    TopicOfFirstMatchingRule(q, 2);
  }

  /** The quick question "시설 정보" gets the facilities list. */
  lemma FacilitiesQuickQuestion()
    ensures BotTopic(QuickQuestions[3]) == Facilities
  {
    var q := "시설 정보";
    assert QuickQuestions[3] == q;
    Text.ToLowerWithoutCapitals(q);
    assert "" + "시설" + " 정보" == q;
    Text.ContainsInfix("", "시설", " 정보");
    TopicOfFirstMatchingRule(q, 3);
  }

  /** The quick question "체크인/아웃" gets the check-in times. */
  lemma CheckInQuickQuestion()
    ensures BotTopic(QuickQuestions[4]) == CheckIn
  {
    var q := "체크인/아웃";
    assert QuickQuestions[4] == q;
    Text.ToLowerWithoutCapitals(q);
    assert "" + "체크인" + "/아웃" == q;
    Text.ContainsInfix("", "체크인", "/아웃");
    TopicOfFirstMatchingRule(q, 4);
  }

  /** The quick question "취소 정책" gets the cancellation policy. */
  lemma CancellationQuickQuestion()
    ensures BotTopic(QuickQuestions[5]) == Cancellation
  {
    var q := "취소 정책";
    assert QuickQuestions[5] == q;
    Text.ToLowerWithoutCapitals(q);
    assert "" + "취소" + " 정책" == q;
    Text.ContainsInfix("", "취소", " 정책");
    TopicOfFirstMatchingRule(q, 5);
  }

  // ---------------------------------------------------------------------------------------
  // The conversation
  // ---------------------------------------------------------------------------------------

  /** A chat message; `timestamp` is the clock reading in milliseconds. */
  datatype Message = Message(id: string, text: string, isUser: bool, timestamp: int)

  const GreetingText := "안녕하세요! 라온아띠 AI 어시스턴트입니다. 무엇을 도와드릴까요?"

  function Greeting(mountTime: int): Message {
    Message("1", GreetingText, false, mountTime)
  }

  /** The user's message, with `Date.now().toString()` as its id. */
  function UserMessage(text: string, now: nat): Message {
    Message(Text.NatToString(now), text, true, now)
  }

  /** The reply to `question` when its timer fires, with `(Date.now() + 1).toString()` as id. */
  function BotMessage(question: string, now: nat): Message {
    Message(Text.NatToString(now + 1), GetBotResponse(question), false, now)
  }

  /** The texts of the user's messages, in order. */
  function UserTexts(ms: seq<Message>): seq<string> {
    if |ms| == 0 then []
    else UserTexts(ms[..|ms| - 1]) + (if ms[|ms| - 1].isUser then [ms[|ms| - 1].text] else [])
  }

  /** The number of bot messages. */
  function BotCount(ms: seq<Message>): nat {
    if |ms| == 0 then 0 else BotCount(ms[..|ms| - 1]) + (if ms[|ms| - 1].isUser then 0 else 1)
  }

  /** What the conversation keeps: it opens with the greeting, no blank message is ever sent,
      every question but the still unanswered ones has had exactly one reply, and the
      unanswered questions are the latest ones, oldest first. */
  predicate ChatInvariant(ms: seq<Message>, pending: seq<string>) {
    var asked := UserTexts(ms);
    && |ms| > 0 && ms[0].id == "1" && !ms[0].isUser && ms[0].text == GreetingText
    && |asked| + 1 == BotCount(ms) + |pending|
    && |pending| <= |asked| && pending == asked[|asked| - |pending|..]
    && forall i :: 0 <= i < |asked| ==> !IsBlank(asked[i])
  }

  lemma InitialChatInvariant(mountTime: int)
    ensures ChatInvariant([Greeting(mountTime)], [])
  {
    assert [Greeting(mountTime)][..0] == [];
  }

  /** Sending a non-blank question appends it and queues it for a reply. */
  lemma SendKeepsChatInvariant(ms: seq<Message>, pending: seq<string>, text: string, now: nat)
    requires ChatInvariant(ms, pending) && !IsBlank(text)
    ensures ChatInvariant(ms + [UserMessage(text, now)], pending + [text])
  {
    var ms' := ms + [UserMessage(text, now)];
    assert ms'[..|ms'| - 1] == ms;
    var asked := UserTexts(ms);
    assert UserTexts(ms') == asked + [text];
    assert (asked + [text])[|asked| - |pending|..] == asked[|asked| - |pending|..] + [text];
  }

  /** Appending a bot message answers the oldest unanswered question and dequeues it. */
  lemma AnswerKeepsChatInvariant(ms: seq<Message>, pending: seq<string>, reply: Message)
    requires ChatInvariant(ms, pending) && |pending| > 0 && !reply.isUser
    ensures pending[0] == UserTexts(ms)[|UserTexts(ms)| - |pending|]
    ensures ChatInvariant(ms + [reply], pending[1..])
  {
    var ms' := ms + [reply];
    assert ms'[..|ms'| - 1] == ms;
    assert ms'[0] == ms[0];
    var asked := UserTexts(ms);
    assert UserTexts(ms') == asked;
    assert BotCount(ms') == BotCount(ms) + 1;
    assert asked[|asked| - |pending|..][1..] == asked[|asked| - (|pending| - 1)..];
  }

  /** A firing reply timer answers the oldest unanswered question and dequeues it. */
  lemma ReplyKeepsChatInvariant(ms: seq<Message>, pending: seq<string>, now: nat)
    requires ChatInvariant(ms, pending) && |pending| > 0
    ensures pending[0] == UserTexts(ms)[|UserTexts(ms)| - |pending|]
    ensures ChatInvariant(ms + [BotMessage(pending[0], now)], pending[1..])
  {
    AnswerKeepsChatInvariant(ms, pending, BotMessage(pending[0], now));
  }

  class ChatbotPage {
    var messages: seq<Message>
    var inputText: string
    var isTyping: bool
    /** The questions whose reply timers are still running, in firing order. */
    var pending: seq<string>

    ghost predicate Valid()
      reads this
    {
      ChatInvariant(messages, pending)
    }

    constructor (mountTime: int)
      ensures Valid()
      ensures messages == [Greeting(mountTime)] && inputText == "" && !isTyping && pending == []
    {
      messages := [Greeting(mountTime)];
      inputText := "";
      isTyping := false;
      pending := [];
      InitialChatInvariant(mountTime);
    }

    /** The text area's `onChange`. */
    method SetInputText(value: string)
      modifies this`inputText
      ensures inputText == value
    {
      inputText := value;
    }

    /** The body of `handleSendMessage` for the text it read: a blank text sends nothing;
        otherwise the question is appended, the input cleared and a reply timer started. */
    method SendText(text: string, now: nat)
      requires Valid()
      modifies this`messages, this`inputText, this`isTyping, this`pending
      ensures Valid()
      ensures IsBlank(text) ==>
        messages == old(messages) && inputText == old(inputText) && isTyping == old(isTyping) && pending == old(pending)
      ensures !IsBlank(text) ==>
        messages == old(messages) + [UserMessage(text, now)] && inputText == "" && isTyping &&
        pending == old(pending) + [text]
    {
      if IsBlank(text) {
        return;
      }
      SendKeepsChatInvariant(messages, pending, text, now);
      messages := messages + [UserMessage(text, now)];
      inputText := "";
      isTyping := true;
      pending := pending + [text];
    }

    /** `handleSendMessage` with the current input, as the Enter key runs it. */
    method HandleSendMessage(now: nat)
      requires Valid()
      modifies this`messages, this`inputText, this`isTyping, this`pending
      ensures Valid()
      ensures IsBlank(old(inputText)) ==>
        messages == old(messages) && inputText == old(inputText) && isTyping == old(isTyping) && pending == old(pending)
      ensures !IsBlank(old(inputText)) ==>
        messages == old(messages) + [UserMessage(old(inputText), now)] && inputText == "" && isTyping &&
        pending == old(pending) + [old(inputText)]
    {
      SendText(inputText, now);
    }

    /** `handleKeyPress`: Enter without Shift sends, whether or not a reply is still pending. */
    method HandleKeyPress(key: string, shiftKey: bool, now: nat)
      requires Valid()
      modifies this`messages, this`inputText, this`isTyping, this`pending
      ensures Valid()
      ensures !(key == "Enter" && !shiftKey) ==>
        messages == old(messages) && inputText == old(inputText) && isTyping == old(isTyping) && pending == old(pending)
      ensures key == "Enter" && !shiftKey && IsBlank(old(inputText)) ==>
        messages == old(messages) && inputText == old(inputText) && isTyping == old(isTyping) && pending == old(pending)
      ensures key == "Enter" && !shiftKey && !IsBlank(old(inputText)) ==>
        messages == old(messages) + [UserMessage(old(inputText), now)] && inputText == "" && isTyping &&
        pending == old(pending) + [old(inputText)]
    {
      if key == "Enter" && !shiftKey {
        HandleSendMessage(now);
      }
    }

    /** The send button, disabled while the input is blank or a reply is pending. */
    method HandleSendClick(now: nat)
      requires Valid()
      modifies this`messages, this`inputText, this`isTyping, this`pending
      ensures Valid()
      ensures (old(isTyping) || IsBlank(old(inputText))) ==>
        messages == old(messages) && inputText == old(inputText) && isTyping == old(isTyping) && pending == old(pending)
      ensures !old(isTyping) && !IsBlank(old(inputText)) ==>
        messages == old(messages) + [UserMessage(old(inputText), now)] && inputText == "" && isTyping &&
        pending == old(pending) + [old(inputText)]
    {
      if !isTyping {
        HandleSendMessage(now);
      }
    }

    /** The oldest reply timer fires: the reply to its question is appended and the typing
        indicator turned off, even when later questions are still waiting. */
    method DeliverReply(now: nat)
      requires Valid() && |pending| > 0
      modifies this`messages, this`isTyping, this`pending
      ensures Valid()
      ensures old(pending)[0] == UserTexts(old(messages))[|UserTexts(old(messages))| - |old(pending)|]
      ensures messages == old(messages) + [BotMessage(old(pending)[0], now)]
      ensures !isTyping && pending == old(pending)[1..]
    {
      var reply := BotMessage(pending[0], now);
      AnswerKeepsChatInvariant(messages, pending, reply);
      messages := messages + [reply];
      isTyping := false;
      pending := pending[1..];
    }
  }
}
