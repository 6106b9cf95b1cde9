/** The phone-verification page (src/pages/PhoneVerificationPage.tsx): the six one-digit code
    slots, the phone field's sanitiser, the mobile-number pattern, and the order of the checks
    made before the send-code and verify-code requests. */
module PhoneVerification {
  import opened Wrappers
  import Text
  import LocalStorage

  // ---------------------------------------------------------------------------------------
  // Code slots
  // ---------------------------------------------------------------------------------------

  const CodeLength: nat := 6

  /** `/^[0-9]?$/.test(value)`: empty, or exactly one digit. */
  predicate IsCodeSlot(value: string) {
    value == "" || (|value| == 1 && Text.IsDigit(value[0]))
  }

  predicate ValidCode(code: seq<string>) {
    |code| == CodeLength && forall i :: 0 <= i < |code| ==> IsCodeSlot(code[i])
  }

  /** `handleChange(index, value)`: a value that is not a code slot is rejected; otherwise only
      slot `index` is replaced. */
  function UpdateCode(code: seq<string>, index: nat, value: string): (r: seq<string>)
    requires index < |code|
    ensures |r| == |code|
    ensures !IsCodeSlot(value) ==> r == code
    ensures IsCodeSlot(value) ==> r[index] == value
    ensures forall i :: 0 <= i < |code| && i != index ==> r[i] == code[i]
    ensures ValidCode(code) ==> ValidCode(r)
  {
    if !IsCodeSlot(value) then code else code[index := value]
  }

  /** Number of filled slots. */
  function Filled(code: seq<string>): nat {
    if |code| == 0 then 0 else Filled(code[..|code| - 1]) + (if code[|code| - 1] != "" then 1 else 0)
  }

  /** Joining slots of at most one character yields one character per filled slot, so
      `code.join('')` has length 6 exactly when all six slots are filled. */
  lemma {:induction false} JoinedCodeLength(code: seq<string>)
    requires forall i :: 0 <= i < |code| ==> IsCodeSlot(code[i])
    ensures |Text.Join(code)| == Filled(code) <= |code|
    ensures |Text.Join(code)| == |code| <==> forall i :: 0 <= i < |code| ==> code[i] != ""
    ensures Text.AllDigits(Text.Join(code))
  {
    if |code| > 0 {
      var init := code[..|code| - 1];
      JoinedCodeLength(init);
      var joined := Text.Join(code);
      assert joined == Text.Join(init) + code[|code| - 1];
      if forall i :: 0 <= i < |init| ==> init[i] != "" {
        if code[|code| - 1] != "" {
          assert forall i :: 0 <= i < |code| ==> code[i] != "" by {
            forall i | 0 <= i < |code| ensures code[i] != "" {
              if i < |init| {
                assert code[i] == init[i];
              }
            }
          }
        }
      } else {
        var j :| 0 <= j < |init| && init[j] == "";
        assert code[j] == "";
      }
      assert Text.AllDigits(Text.Join(init));
      forall i | 0 <= i < |joined| ensures Text.IsDigit(joined[i]) {
        if i >= |Text.Join(init)| {
          assert joined[i] == code[|code| - 1][i - |Text.Join(init)|];
        } else {
          assert joined[i] == Text.Join(init)[i];
        }
      }
    }
  }

  // ---------------------------------------------------------------------------------------
  // Phone field
  // ---------------------------------------------------------------------------------------

  /** `value.replace(/[^0-9]/g, '')`: the digits of `value`, in order. */
  function KeepDigits(value: string): (r: string)
    ensures Text.AllDigits(r) && |r| <= |value|
  {
    if |value| == 0 then ""
    else (if Text.IsDigit(value[0]) then [value[0]] else "") + KeepDigits(value[1..])
  }

  /** Keeping digits distributes over concatenation, so it preserves their order. */
  lemma {:induction false} KeepDigitsAppend(a: string, b: string)
    ensures KeepDigits(a + b) == KeepDigits(a) + KeepDigits(b)
    decreases |a|
  {
    if |a| > 0 {
      assert (a + b)[1..] == a[1..] + b;
      KeepDigitsAppend(a[1..], b);
    } else {
      assert a + b == b;
    }
  }

  /** A string of digits is left as it is. */
  lemma {:induction false} KeepDigitsOfDigits(value: string)
    requires Text.AllDigits(value)
    ensures KeepDigits(value) == value
    decreases |value|
  {
    if |value| > 0 {
      KeepDigitsOfDigits(value[1..]);
      assert value == [value[0]] + value[1..];
    }
  }

  /** `handlePhoneChange`: digits only, cut to 11. */
  function SanitizePhone(value: string): (r: string)
    ensures Text.AllDigits(r) && |r| <= 11
  {
    var digits := KeepDigits(value);
    if |digits| <= 11 then digits else digits[..11]
  }

  /** Sanitising is idempotent, and keeps the first 11 digits of the input in order. */
  lemma SanitizePhoneIdempotent(value: string)
    ensures SanitizePhone(SanitizePhone(value)) == SanitizePhone(value)
    ensures Text.StartsWith(KeepDigits(value), SanitizePhone(value))
  {
    KeepDigitsOfDigits(SanitizePhone(value));
  }

  /** The third character of a mobile number, `[016789]`. */
  predicate IsCarrierDigit(c: char) {
    c == '0' || c == '1' || c == '6' || c == '7' || c == '8' || c == '9'
  }

  /** `/^01[016789][0-9]{7,8}$/.test(phone)`, read piece by piece. */
  predicate IsMobileNumber(phone: string) {
    |phone| >= 3 && phone[0] == '0' && phone[1] == '1' && IsCarrierDigit(phone[2]) &&
    7 <= |phone| - 3 <= 8 && Text.AllDigits(phone[3..])
  }

  /** An accepted number is 10 or 11 digits starting "01" and a carrier digit, and the
      sanitiser leaves it unchanged. */
  lemma MobileNumberShape(phone: string)
    ensures IsMobileNumber(phone) <==>
      (|phone| == 10 || |phone| == 11) && Text.AllDigits(phone) &&
      Text.StartsWith(phone, "01") && IsCarrierDigit(phone[2])
    ensures IsMobileNumber(phone) ==> SanitizePhone(phone) == phone
  {
    if IsMobileNumber(phone) {
      assert forall i :: 3 <= i < |phone| ==> phone[i] == phone[3..][i - 3];
      KeepDigitsOfDigits(phone);
    }
    if (|phone| == 10 || |phone| == 11) && Text.AllDigits(phone) {
      assert forall i :: 0 <= i < |phone| - 3 ==> phone[3..][i] == phone[i + 3];
    }
  }

  /** With every slot holding exactly one character, `code.join('')` is those characters in
      slot order. */
  lemma {:induction false} JoinedFullCode(code: seq<string>)
    requires forall i :: 0 <= i < |code| ==> |code[i]| == 1
    ensures |Text.Join(code)| == |code|
    ensures forall i :: 0 <= i < |code| ==> Text.Join(code)[i] == code[i][0]
  {
    if |code| > 0 {
      var init := code[..|code| - 1];
      JoinedFullCode(init);
      var joined := Text.Join(code);
      assert joined == Text.Join(init) + code[|code| - 1];
      forall i | 0 <= i < |code| ensures joined[i] == code[i][0] {
        if i < |init| {
          assert joined[i] == Text.Join(init)[i] == init[i][0];
        }
      }
    }
  }

  // ---------------------------------------------------------------------------------------
  // Submission
  // ---------------------------------------------------------------------------------------

  const PhoneError := "올바른 휴대폰 번호를 입력하세요."
  const CodeError := "6자리 인증번호를 입력하세요."

  /** The checks at the top of `handleSubmit`, in order: phone first, then code length. */
  datatype SubmitCheck = PhoneInvalid | CodeIncomplete | Verify(phone: string, code: string)

  function CheckSubmit(phone: string, code: seq<string>): (r: SubmitCheck)
    requires ValidCode(code)
    ensures !IsMobileNumber(phone) ==> r == PhoneInvalid
    ensures r == CodeIncomplete <==> IsMobileNumber(phone) && exists i :: 0 <= i < |code| && code[i] == ""
    ensures r.Verify? ==> r.phone == phone && |r.code| == CodeLength && Text.AllDigits(r.code)
    ensures r.Verify? ==> forall i :: 0 <= i < CodeLength ==> r.code[i] == code[i][0]
  {
    JoinedCodeLength(code);
    if !IsMobileNumber(phone) then PhoneInvalid
    else
      var codeValue := Text.Join(code);
      if |codeValue| != CodeLength then CodeIncomplete
      else
        JoinedFullCode(code);
        Verify(phone, codeValue)
  }

  /** How a request settled: a reply with an optional `message`, an error response with an
      optional `message`, or no response at all. */
  datatype ServerReply = Success(message: Option<string>) | ErrorResponse(message: Option<string>) | NoResponse

  /** `m || fallback`. */
  function MessageOr(m: Option<string>, fallback: string): (r: string)
    ensures m.Some? && m.value != "" ==> r == m.value
    ensures m.None? || m.value == "" ==> r == fallback
  {
    if m.Some? && m.value != "" then m.value else fallback
  }

  class PhoneVerificationPage {
    var code: seq<string>
    var error: string
    var isSubmitting: bool
    var phone: string
    var isSending: bool
    var sendMsg: string

    ghost predicate Valid()
      reads this
    {
      ValidCode(code)
    }

    constructor ()
      ensures Valid() && code == ["", "", "", "", "", ""]
      ensures error == "" && !isSubmitting && phone == "" && !isSending && sendMsg == ""
    {
      code := ["", "", "", "", "", ""];
      error, isSubmitting, phone, isSending, sendMsg := "", false, "", false, "";
    }

    /** `handleChange(index, value)` from the code input at `index`. */
    method HandleChange(index: nat, value: string)
      requires Valid() && index < CodeLength
      modifies this`code
      ensures Valid()
      ensures code == UpdateCode(old(code), index, value)
    {
      if !IsCodeSlot(value) {
        return;
      }
      var newCode := code;
      newCode := newCode[index := value];
      code := newCode;
    }

    /** `handlePhoneChange` with the input's new text. */
    method HandlePhoneChange(value: string)
      modifies this`phone
      ensures phone == SanitizePhone(value)
    {
      phone := SanitizePhone(value);
    }

    /** `handleSendCode` up to the POST: returns the number sent, or `None` after setting the
        pattern error. */
    method HandleSendCode() returns (request: Option<string>)
      modifies this`sendMsg, this`error, this`isSending
      ensures sendMsg == ""
      ensures request.Some? <==> IsMobileNumber(phone)
      ensures request.Some? ==> request.value == phone && error == "" && isSending
      ensures request.None? ==> error == PhoneError && isSending == old(isSending)
    {
      sendMsg := "";
      error := "";
      if !IsMobileNumber(phone) {
        error := PhoneError;
        return None;
      }
      isSending := true;
      request := Some(phone);
    }

    /** The rest of `handleSendCode` once the POST has settled. */
    method SendCodeSettled(reply: ServerReply)
      modifies this`sendMsg, this`error, this`isSending
      ensures !isSending
      ensures reply.Success? ==> sendMsg == MessageOr(reply.message, "인증번호가 발송되었습니다.") && error == old(error)
      ensures reply.ErrorResponse? ==> error == MessageOr(reply.message, "인증번호 발송에 실패했습니다.") && sendMsg == old(sendMsg)
      ensures reply.NoResponse? ==> error == "서버 오류로 발송에 실패했습니다." && sendMsg == old(sendMsg)
    {
      match reply {
        case Success(message) =>
          sendMsg := MessageOr(message, "인증번호가 발송되었습니다.");
        case ErrorResponse(message) =>
          error := MessageOr(message, "인증번호 발송에 실패했습니다.");
        case NoResponse =>
          error := "서버 오류로 발송에 실패했습니다.";
      }
      isSending := false;
    }

    /** `handleSubmit` up to the POST: returns the (phone, code) pair sent, or `None` after
        setting the error of the first check that failed. */
    method HandleSubmit() returns (request: Option<(string, string)>)
      requires Valid()
      modifies this`isSubmitting, this`error, this`sendMsg
      ensures Valid() && sendMsg == ""
      ensures var check := CheckSubmit(phone, code);
        && (check == PhoneInvalid ==> request.None? && error == PhoneError && !isSubmitting)
        && (check == CodeIncomplete ==> request.None? && error == CodeError && !isSubmitting)
        && (check.Verify? ==> request == Some((check.phone, check.code)) && error == "" && isSubmitting)
    {
      isSubmitting := true;
      error := "";
      sendMsg := "";
      if !IsMobileNumber(phone) {
        error := PhoneError;
        isSubmitting := false;
        return None;
      }
      var codeValue := Text.Join(code);
      if |codeValue| != CodeLength {
        error := CodeError;
        isSubmitting := false;
        return None;
      }
      request := Some((phone, codeValue));
    }

    /** The rest of `handleSubmit` once the POST has settled; on success the number is kept in
        the store under "phone" and the page moves on (`navigated`). */
    method SubmitSettled(reply: ServerReply, store: LocalStorage.Storage) returns (navigated: bool)
      modifies this`sendMsg, this`error, this`isSubmitting, store
      ensures !isSubmitting
      ensures navigated <==> reply.Success?
      ensures reply.Success? ==> sendMsg == MessageOr(reply.message, "인증번호 인증에 성공했습니다.") &&
                                 store.items == old(store.items)["phone" := phone] && error == old(error)
      ensures !reply.Success? ==> store.items == old(store.items) && sendMsg == old(sendMsg)
      ensures reply.ErrorResponse? ==> error == MessageOr(reply.message, "인증번호가 옳지 않습니다.")
      ensures reply.NoResponse? ==> error == "서버 오류로 인증에 실패했습니다."
    {
      navigated := false;
      match reply {
        case Success(message) =>
          sendMsg := MessageOr(message, "인증번호 인증에 성공했습니다.");
          store.SetItem("phone", phone);
          navigated := true;
        case ErrorResponse(message) =>
          error := MessageOr(message, "인증번호가 옳지 않습니다.");
        case NoResponse =>
          error := "서버 오류로 인증에 실패했습니다.";
      }
      isSubmitting := false;
    }
  }
}
