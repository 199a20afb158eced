/** ProductNameValidator (gift.product): the product-name rules with their own literal messages,
    a maximum of 15 characters, and the word 카카오 rejected unless explicitly allowed. */
module ProductNameValidator {
  import opened Common
  import opened NameValidator

  const MAX_LENGTH: int := 15

  /** `validate(name, allowKakao)`: the same checks as the generic validator, each adding its own
      literal message. The list is exactly the generic one for "Product name", a maximum of 15
      and the 카카오 check switched on when 카카오 is not allowed. */
  method Validate(name: Nullable<string>, allowKakao: bool) returns (errors: seq<string>)
    ensures errors == Errors(name, "Product name", MAX_LENGTH, !allowKakao)
  {
    errors := [];
    if name.Null? || IsBlank(name.value) {
      RequiredText();
      errors := errors + ["Product name is required."];
      return;
    }
    var s := name.value;
    ghost var found: seq<Violation> := [];
    if Utf16Length(s) > MAX_LENGTH {
      TooLongText();
      MessagesSnoc("Product name", MAX_LENGTH, found, TooLong);
      errors := errors + ["Product name" + " must be at most 15 characters."];
    }
    found := Push(found, Utf16Length(s) > MAX_LENGTH, TooLong);
    if !MatchesAllowedPattern(s) {
      MessagesSnoc("Product name", MAX_LENGTH, found, InvalidCharacters);
      errors := errors + ["Product name" + (" contains invalid special characters." + " Allowed: ( ) [ ] + - & / _")];
    }
    found := Push(found, !MatchesAllowedPattern(s), InvalidCharacters);
    if !allowKakao && Contains(s, KAKAO) {
      MessagesSnoc("Product name", MAX_LENGTH, found, KakaoNeedsApproval);
      errors := errors + ["Product name" + (" containing \"카카오\"" + " requires approval from the MD team.")];
    }
    found := Push(found, !allowKakao && Contains(s, KAKAO), KakaoNeedsApproval);
  }

  /** `validate(name)`: 카카오 is rejected by default. */
  method ValidateDefault(name: Nullable<string>) returns (errors: seq<string>)
    ensures errors == Errors(name, "Product name", MAX_LENGTH, true)
    ensures !Blank(name) && Contains(name.value, KAKAO) ==>
              errors[|errors| - 1] == ErrorMessage("Product name", MAX_LENGTH, KakaoNeedsApproval)
  {
    errors := Validate(name, false);
    if !Blank(name) && Contains(name.value, KAKAO) {
      var v := Violations(name, MAX_LENGTH, true);
      assert v[|v| - 1] == KakaoNeedsApproval;
      MessageAt("Product name", MAX_LENGTH, v, |v| - 1);
    }
  }

  /** A product name of more than 15 characters that contains '!' gets both the length and the
      character message, in that order. */
  lemma LongNameWithBangGetsTwoErrors(s: string, k: nat)
    requires |s| > MAX_LENGTH && k < |s| && s[k] == '!'
    ensures var e := Errors(NonNull(s), "Product name", MAX_LENGTH, true);
            |e| >= 2 && e[0] == ErrorMessage("Product name", MAX_LENGTH, TooLong)
            && e[1] == ErrorMessage("Product name", MAX_LENGTH, InvalidCharacters)
  {
    assert !JavaWhitespace(s[k]);
    assert !AllowedChar(s[k]);
    TooLongAndInvalidGivesTwoErrors(NonNull(s), "Product name", MAX_LENGTH, true);
  }

  /** The "required" and "too long" literal messages are the generic ones for "Product name" and a
      maximum of 15. */
  lemma RequiredText()
    ensures ErrorMessage("Product name", MAX_LENGTH, Required) == "Product name is required."
  {
  }

  lemma TooLongText()
    ensures ErrorMessage("Product name", MAX_LENGTH, TooLong) == "Product name" + " must be at most 15 characters."
  {
    LengthTail();
  }

  lemma LengthTail()
    ensures MessageTail(MAX_LENGTH, TooLong) == " must be at most 15 characters."
  {
    MaxLengthDigits();
  }

  lemma MaxLengthDigits()
    ensures DecimalString(MAX_LENGTH) == "15"
  {
    assert NatString(1) == "1";
  }
}
