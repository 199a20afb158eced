/** OptionNameValidator (gift.option): the option-name rules with their own literal messages and
    a maximum of 50 characters; there is no 카카오 rule. */
module OptionNameValidator {
  import opened Common
  import opened NameValidator

  const MAX_LENGTH: int := 50

  /** `validate(name)`: exactly the generic three-argument validator for "Option name" and a
      maximum of 50. (Long literals are written in two parts.) */
  method Validate(name: Nullable<string>) returns (errors: seq<string>)
    ensures errors == Errors(name, "Option name", MAX_LENGTH, false)
  {
    errors := [];
    if name.Null? || IsBlank(name.value) {
      RequiredText();
      errors := errors + ["Option name is required."];
      return;
    }
    var s := name.value;
    ghost var found: seq<Violation> := [];
    if Utf16Length(s) > MAX_LENGTH {
      TooLongText();
      MessagesSnoc("Option name", MAX_LENGTH, found, TooLong);
      errors := errors + ["Option name" + " must be at most 50 characters."];
    }
    found := Push(found, Utf16Length(s) > MAX_LENGTH, TooLong);
    if !MatchesAllowedPattern(s) {
      MessagesSnoc("Option name", MAX_LENGTH, found, InvalidCharacters);
      errors := errors + ["Option name" + (" contains invalid special characters." + " Allowed: ( ) [ ] + - & / _")];
    }
    found := Push(found, !MatchesAllowedPattern(s), InvalidCharacters);
    found := Push(found, false, KakaoNeedsApproval);
  }

  /** The option validator never asks for 카카오 approval, whatever the name. */
  lemma NeverKakaoError(name: Nullable<string>)
    ensures forall e :: e in Errors(name, "Option name", MAX_LENGTH, false) ==>
              e != ErrorMessage("Option name", MAX_LENGTH, KakaoNeedsApproval)
  {
    var v := Violations(name, MAX_LENGTH, false);
    var errors := Errors(name, "Option name", MAX_LENGTH, false);
    forall e | e in errors
      ensures e != ErrorMessage("Option name", MAX_LENGTH, KakaoNeedsApproval)
    {
      var i :| 0 <= i < |errors| && errors[i] == e;
      MessageAt("Option name", MAX_LENGTH, v, i);
      assert v[i] in v;
      MessagesDistinct("Option name", MAX_LENGTH, v[i], KakaoNeedsApproval);
    }
  }

  /** 51 exclamation marks get exactly the length message and the character message. */
  lemma FiftyOneBangs(s: string)
    requires |s| == 51 && forall i :: 0 <= i < |s| ==> s[i] == '!'
    ensures Errors(NonNull(s), "Option name", MAX_LENGTH, false)
         == [ErrorMessage("Option name", MAX_LENGTH, TooLong), ErrorMessage("Option name", MAX_LENGTH, InvalidCharacters)]
  {
    assert !JavaWhitespace(s[0]) && !AllowedChar(s[0]);
    assert Utf16Length(s) == 51;
    PatternMatchesIffAllAllowed(s);
    var v := Violations(NonNull(s), MAX_LENGTH, false);
    assert v == [TooLong, InvalidCharacters];
    MessageAt("Option name", MAX_LENGTH, v, 0);
    MessageAt("Option name", MAX_LENGTH, v, 1);
  }

  /** The literal messages of the option validator are the generic ones for "Option name" and a
      maximum of 50. */
  lemma RequiredText()
    ensures ErrorMessage("Option name", MAX_LENGTH, Required) == "Option name is required."
  {
  }

  lemma TooLongText()
    ensures ErrorMessage("Option name", MAX_LENGTH, TooLong) == "Option name" + " must be at most 50 characters."
  {
    LengthTail();
  }

  lemma LengthTail()
    ensures MessageTail(MAX_LENGTH, TooLong) == " must be at most 50 characters."
  {
    MaxLengthDigits();
  }

  lemma MaxLengthDigits()
    ensures DecimalString(MAX_LENGTH) == "50"
  {
    assert NatString(5) == "5";
  }
}
