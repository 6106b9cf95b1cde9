/** The password-setup page (src/pages/PasswordSetupPage.tsx): the password rule, the order of
    the checks before the update request, and what a settled request leaves in the store. */
module PasswordSetup {
  import opened Wrappers
  import Text
  import LocalStorage

  // ---------------------------------------------------------------------------------------
  // The password rule
  // ---------------------------------------------------------------------------------------

  /** The characters a regular-expression `.` does not match without the `s` flag. */
  predicate IsLineTerminator(c: char) {
    c == '\n' || c == '\r' || c == '\U{2028}' || c == '\U{2029}'
  }

  /** The special-character class of the rule, as four ASCII ranges: every ASCII punctuation
      character except the backtick and the tilde. */
  predicate IsSpecial(c: char) {
    ('!' <= c <= '/') || (':' <= c <= '@') || ('[' <= c <= '_') || ('{' <= c <= '}')
  }

  /** The ranges are exactly the bracket expression the rule lists. */
  lemma SpecialClass(c: char)
    ensures IsSpecial(c) <==> c in "!@#$%^&*()_+-=[]{};':\"\\|,.<>/?"
  {
  }

  /** Some character of `s` is in class `cls`. */
  function AnyChar(s: string, cls: char -> bool): bool {
    if |s| == 0 then false else cls(s[0]) || AnyChar(s[1..], cls)
  }

  lemma {:induction false} AnyCharIff(s: string, cls: char -> bool)
    ensures AnyChar(s, cls) <==> exists i :: 0 <= i < |s| && cls(s[i])
    decreases |s|
  {
    if |s| > 0 {
      AnyCharIff(s[1..], cls);
      if exists i :: 0 <= i < |s| && cls(s[i]) {
        var i :| 0 <= i < |s| && cls(s[i]);
        if i > 0 {
          assert s[1..][i - 1] == s[i];
        }
      }
      if exists i :: 0 <= i < |s[1..]| && cls(s[1..][i]) {
        var i :| 0 <= i < |s[1..]| && cls(s[1..][i]);
        assert s[i + 1] == s[1..][i];
      }
    }
  }

  /** `validatePassword`: at least 8 characters, no line break, and at least one capital
      letter, one digit and one special character. */
  function ValidatePassword(pw: string): bool {
    |pw| >= 8 && !AnyChar(pw, IsLineTerminator) &&
    AnyChar(pw, Text.IsAsciiUpper) && AnyChar(pw, Text.IsDigit) && AnyChar(pw, IsSpecial)
  }

  /** The lookahead `(?=.*[X])` succeeds at the start of `s` by finding `X` at `i`: the
      characters before `i` are all matched by `.`. */
  ghost predicate FoundAt(s: string, i: int, cls: char -> bool) {
    0 <= i < |s| && cls(s[i]) && forall j :: 0 <= j < i ==> !IsLineTerminator(s[j])
  }

  /** The pattern `^(?=.*[A-Z])(?=.*[0-9])(?=.*[special]).{8,}$`, read as the regular
      expression engine reads it. */
  ghost predicate MatchesPasswordPattern(s: string) {
    (exists i :: FoundAt(s, i, Text.IsAsciiUpper)) &&
    (exists i :: FoundAt(s, i, Text.IsDigit)) &&
    (exists i :: FoundAt(s, i, IsSpecial)) &&
    |s| >= 8 && forall j :: 0 <= j < |s| ==> !IsLineTerminator(s[j])
  }

  lemma LookaheadFound(s: string, cls: char -> bool)
    requires forall j :: 0 <= j < |s| ==> !IsLineTerminator(s[j])
    ensures AnyChar(s, cls) <==> exists i :: FoundAt(s, i, cls)
  {
    AnyCharIff(s, cls);
    if AnyChar(s, cls) {
      var i :| 0 <= i < |s| && cls(s[i]);
      assert FoundAt(s, i, cls);
    }
  }

  /** The rule accepts exactly the strings the pattern matches. */
  lemma ValidatePasswordMeaning(pw: string)
    ensures ValidatePassword(pw) <==> MatchesPasswordPattern(pw)
  {
    AnyCharIff(pw, IsLineTerminator);
    if forall j :: 0 <= j < |pw| ==> !IsLineTerminator(pw[j]) {
      LookaheadFound(pw, Text.IsAsciiUpper);
      LookaheadFound(pw, Text.IsDigit);
      LookaheadFound(pw, IsSpecial);
    }
  }

  /** A password with a capital letter, a digit and a special character passes the rule. */
  lemma StrongPasswordAccepted()
    ensures ValidatePassword("Penbot12!")
  {
    var pw := "Penbot12!";
    assert !AnyChar(pw, IsLineTerminator) by {
      AnyCharIff(pw, IsLineTerminator);
    }
    assert AnyChar(pw, Text.IsDigit) by {
      AnyCharIff(pw, Text.IsDigit);
      assert Text.IsDigit(pw[6]);
    }
    assert AnyChar(pw, IsSpecial) by {
      AnyCharIff(pw, IsSpecial);
      assert IsSpecial(pw[8]);
    }
  }

  /** Leaving out the capital letter fails the rule. */
  lemma PasswordWithoutCapitalRejected()
    ensures !ValidatePassword("penbot12!")
  {
    assert !AnyChar("penbot12!", Text.IsAsciiUpper) by {
      AnyCharIff("penbot12!", Text.IsAsciiUpper);
    }
  }

  /** Leaving out the special character fails the rule. */
  lemma PasswordWithoutSpecialRejected()
    ensures !ValidatePassword("Penbot123")
  {
    assert !AnyChar("Penbot123", IsSpecial) by {
      AnyCharIff("Penbot123", IsSpecial);
    }
  }

  // ---------------------------------------------------------------------------------------
  // Submission
  // ---------------------------------------------------------------------------------------

  const WeakPasswordError := "비밀번호는 8자 이상, 숫자, 대문자, 특수문자를 모두 포함해야 합니다."
  const MismatchError := "비밀번호가 일치하지 않습니다."
  const UpdateFailedError := "비밀번호 설정에 실패했습니다."
  const UpdatedMessage := "비밀번호가 성공적으로 설정되었습니다!"

  /** The checks at the top of `handleSubmit`, in order: the rule first, then the confirmation. */
  datatype PasswordCheck = Weak | Mismatch | Accept

  function CheckPassword(password: string, confirm: string): (r: PasswordCheck)
    ensures r == Weak <==> !ValidatePassword(password)
    ensures r == Mismatch <==> ValidatePassword(password) && password != confirm
    ensures r == Accept <==> ValidatePassword(password) && password == confirm
  {
    if !ValidatePassword(password) then Weak
    else if password != confirm then Mismatch
    else Accept
  }

  /** The update request: the new password and the `Authorization` header, which the template
      literal fills with "null" when no token is stored. */
  datatype UpdateRequest = UpdateRequest(password: string, authorization: string)

  function BearerHeader(token: Option<string>): (r: string)
    ensures Text.StartsWith(r, "Bearer ")
    ensures token.Some? ==> r[7..] == token.value
    ensures token.None? ==> r[7..] == "null"
  {
    "Bearer " + (if token.Some? then token.value else "null")
  }

  /** How the update request settled: a reply, possibly carrying a fresh `accessToken`, or a
      failure of any kind. */
  datatype UpdateReply = Updated(accessToken: Option<string>) | Failed

  class PasswordSetupPage {
    var password: string
    var confirm: string
    var error: string
    var success: string
    var isSubmitting: bool

    constructor ()
      ensures password == "" && confirm == "" && error == "" && success == "" && !isSubmitting
    {
      password, confirm, error, success, isSubmitting := "", "", "", "", false;
    }

    /** `handleSubmit` up to the POST: returns the request sent, or `None` after setting the
        error of the first check that failed. */
    method HandleSubmit(store: map<string, string>) returns (request: Option<UpdateRequest>)
      modifies this`error, this`success, this`isSubmitting
      ensures success == ""
      ensures var check := CheckPassword(password, confirm);
        && (check == Weak ==> request.None? && error == WeakPasswordError && isSubmitting == old(isSubmitting))
        && (check == Mismatch ==> request.None? && error == MismatchError && isSubmitting == old(isSubmitting))
        && (check == Accept ==>
              error == "" && isSubmitting &&
              request == Some(UpdateRequest(password, BearerHeader(LocalStorage.GetItem(store, "jwt")))))
    {
      error := "";
      success := "";
      if !ValidatePassword(password) {
        error := WeakPasswordError;
        return None;
      }
      if password != confirm {
        error := MismatchError;
        return None;
      }
      isSubmitting := true;
      var token := LocalStorage.GetItem(store, "jwt");
      request := Some(UpdateRequest(password, BearerHeader(token)));
    }

    /** The rest of `handleSubmit` once the POST has settled: a truthy `accessToken` replaces
        the stored "jwt", and a success sends the browser to "/" (`navigated`). */
    method UpdateSettled(reply: UpdateReply, store: LocalStorage.Storage) returns (navigated: bool)
      modifies this`error, this`success, this`isSubmitting, store
      ensures !isSubmitting
      ensures navigated <==> reply.Updated?
      ensures reply.Updated? ==> success == UpdatedMessage && error == old(error)
      ensures reply.Updated? && LocalStorage.Truthy(reply.accessToken) ==>
                store.items == old(store.items)["jwt" := reply.accessToken.value]
      ensures reply.Updated? && !LocalStorage.Truthy(reply.accessToken) ==> store.items == old(store.items)
      ensures reply.Failed? ==> error == UpdateFailedError && success == old(success) && store.items == old(store.items)
    {
      navigated := false;
      match reply {
        case Updated(accessToken) =>
          if LocalStorage.Truthy(accessToken) {
            store.SetItem("jwt", accessToken.value);
          }
          success := UpdatedMessage;
          navigated := true;
        case Failed =>
          error := UpdateFailedError;
      }
      isSubmitting := false;
    }
  }
}
