/** The generic name validator (gift.common.NameValidator): a name gets an ordered list of error
    messages, empty when the name is acceptable. */
module NameValidator {
  import opened Common

  /** A character of the class `[a-zA-Z0-9가-힣ㄱ-ㅎㅏ-ㅣ ()\[\]+\-&/_]` of ALLOWED_PATTERN:
      ASCII letters and digits, precomposed Hangul syllables (U+AC00..U+D7A3), Hangul
      consonants (U+3131..U+314E) and vowels (U+314F..U+3163), space and `( ) [ ] + - & / _`. */
  predicate AllowedChar(c: char)
  {
    var k := c as int;
    || ('a' as int <= k <= 'z' as int)
    || ('A' as int <= k <= 'Z' as int)
    || ('0' as int <= k <= '9' as int)
    || (0xAC00 <= k <= 0xD7A3)
    || (0x3131 <= k <= 0x314E)
    || (0x314F <= k <= 0x3163)
    || c in " ()[]+-&/_"
  }

  /** `ALLOWED_PATTERN.matcher(s).matches()`: the whole string is a (possibly empty) repetition
      of the character class. */
  predicate MatchesAllowedPattern(s: string)
  {
    |s| == 0 || (AllowedChar(s[0]) && MatchesAllowedPattern(s[1..]))
  }

  /** The pattern matches exactly the strings made only of allowed characters. */
  lemma {:induction false} PatternMatchesIffAllAllowed(s: string)
    ensures MatchesAllowedPattern(s) <==> forall i :: 0 <= i < |s| ==> AllowedChar(s[i])
  {
    if |s| > 0 {
      PatternMatchesIffAllAllowed(s[1..]);
      assert forall i :: 1 <= i < |s| ==> s[i] == s[1..][i - 1];
    }
  }

  /** Character.isWhitespace: the Unicode space, line and paragraph separators other than the
      no-break spaces U+00A0, U+2007 and U+202F, plus U+0009..U+000D and U+001C..U+001F. */
  predicate JavaWhitespace(c: char)
  {
    var k := c as int;
    || (0x09 <= k <= 0x0D)
    || (0x1C <= k <= 0x20)
    || k == 0x1680
    || (0x2000 <= k <= 0x2006)
    || (0x2008 <= k <= 0x200A)
    || k == 0x2028 || k == 0x2029 || k == 0x205F || k == 0x3000
  }

  /** String.isBlank: empty, or white space only. */
  predicate IsBlank(s: string)
  {
    forall i :: 0 <= i < |s| ==> JavaWhitespace(s[i])
  }

  /** The position of the first character that is not white space, or the length when there is
      none (String.indexOfNonWhitespace). */
  function IndexOfNonWhitespace(s: string): (n: nat)
    ensures n <= |s|
    ensures forall i :: 0 <= i < n ==> JavaWhitespace(s[i])
    ensures n < |s| ==> !JavaWhitespace(s[n])
  {
    if s == [] || !JavaWhitespace(s[0]) then 0 else 1 + IndexOfNonWhitespace(s[1..])
  }

  /** String.isBlank is `indexOfNonWhitespace() == length()`, which is IsBlank. */
  lemma IsBlankIffNoNonWhitespace(s: string)
    ensures IsBlank(s) <==> IndexOfNonWhitespace(s) == |s|
  {
  }

  /** `name == null || name.isBlank()`. */
  predicate Blank(name: Nullable<string>)
  {
    name.Null? || IsBlank(name.value)
  }

  /** String.length: the number of UTF-16 code units, two for a character outside the
      Basic Multilingual Plane. */
  function Utf16Length(s: string): (n: nat)
    ensures |s| <= n <= 2 * |s|
    ensures (forall i :: 0 <= i < |s| ==> s[i] as int <= 0xFFFF) ==> n == |s|
  {
    if s == [] then 0
    else (if s[0] as int > 0xFFFF then 2 else 1) + Utf16Length(s[1..])
  }

  /** String.contains: `t` occurs in `s` at some position. */
  predicate Contains(s: string, t: string)
    decreases |s|
  {
    t <= s || (|s| > 0 && Contains(s[1..], t))
  }

  /** An occurrence of `t` at position `k` of `s` is found by Contains. */
  lemma {:induction false} ContainsAt(s: string, t: string, k: nat)
    requires k + |t| <= |s| && s[k..k + |t|] == t
    ensures Contains(s, t)
  {
    if k > 0 {
      assert s[1..][k - 1..k - 1 + |t|] == s[k..k + |t|];
      ContainsAt(s[1..], t, k - 1);
    } else {
      assert t <= s;
    }
  }

  /** `t` occurs in `s` starting at position `k`. */
  predicate OccursAt(s: string, t: string, k: int)
  {
    0 <= k && k + |t| <= |s| && s[k..k + |t|] == t
  }

  /** Contains holds exactly when `t` occurs in `s` at some position. */
  lemma {:induction false} ContainsIffOccurs(s: string, t: string)
    ensures Contains(s, t) <==> exists k :: OccursAt(s, t, k)
    decreases |s|
  {
    if Contains(s, t) {
      if t <= s {
        assert OccursAt(s, t, 0);
      } else {
        ContainsIffOccurs(s[1..], t);
        var k :| OccursAt(s[1..], t, k);
        assert s[k + 1..k + 1 + |t|] == s[1..][k..k + |t|];
        assert OccursAt(s, t, k + 1);
      }
    }
    if exists k :: OccursAt(s, t, k) {
      var k :| OccursAt(s, t, k);
      ContainsAt(s, t, k);
    }
  }

  const KAKAO: string := "카카오"

  /** What `validate` checks, in the order in which they add their message. */
  datatype Violation = Required | TooLong | InvalidCharacters | KakaoNeedsApproval

  function Rank(v: Violation): nat
  {
    match v
    case Required => 0
    case TooLong => 1
    case InvalidCharacters => 2
    case KakaoNeedsApproval => 3
  }

  /** Which checks a name fails. A null or blank name fails only the "required" check; any
      other name is checked for length, characters and (when asked) the word 카카오,
      independently, and the failures are listed in that order. */
  function Violations(name: Nullable<string>, maxLength: int, checkKakao: bool): (v: seq<Violation>)
    ensures Blank(name) ==> v == [Required]
    ensures Required in v <==> Blank(name)
    ensures TooLong in v <==> !Blank(name) && Utf16Length(name.value) > maxLength
    ensures InvalidCharacters in v <==>
              !Blank(name) && exists i :: 0 <= i < |name.value| && !AllowedChar(name.value[i])
    ensures KakaoNeedsApproval in v <==> !Blank(name) && checkKakao && Contains(name.value, KAKAO)
    ensures forall i, j :: 0 <= i < j < |v| ==> Rank(v[i]) < Rank(v[j])
    ensures 1 <= |v| || !Blank(name)
    ensures |v| <= 3 || Blank(name)
  {
    if Blank(name) then [Required]
    else
      var s := name.value;
      PatternMatchesIffAllAllowed(s);
      var v := Push(Push(Push([], Utf16Length(s) > maxLength, TooLong),
                         !MatchesAllowedPattern(s), InvalidCharacters),
                    checkKakao && Contains(s, KAKAO), KakaoNeedsApproval);
      assert v == (if Utf16Length(s) > maxLength then [TooLong] else [])
                  + (if MatchesAllowedPattern(s) then [] else [InvalidCharacters])
                  + (if checkKakao && Contains(s, KAKAO) then [KakaoNeedsApproval] else []);
      v
  }

  /** `vs` with `v` added at the end when that check failed. */
  function Push(vs: seq<Violation>, failed: bool, v: Violation): (r: seq<Violation>)
    ensures failed ==> r == vs + [v]
    ensures !failed ==> r == vs
  {
    if failed then vs + [v] else vs
  }

  /** The message `validate` adds for a failed check: the field name followed by a fixed text
      (which, for the length check, includes the maximum length in decimal). */
  function ErrorMessage(fieldName: string, maxLength: int, v: Violation): string
  {
    fieldName + MessageTail(maxLength, v)
  }

  /** The fixed text of a message, after the field name. */
  function MessageTail(maxLength: int, v: Violation): string
  {
    match v
    case Required => " is required."
    case TooLong => " must be at most " + DecimalString(maxLength) + " characters."
    case InvalidCharacters => " contains invalid special characters." + " Allowed: ( ) [ ] + - & / _"
    case KakaoNeedsApproval => " containing \"카카오\"" + " requires approval from the MD team."
  }

  /** The message of each failed check, for one field name and maximum length. */
  function MessageOf(fieldName: string, maxLength: int): Violation -> string
  {
    v => ErrorMessage(fieldName, maxLength, v)
  }

  /** One message per failed check, in check order. */
  function MapMessages(message: Violation -> string, vs: seq<Violation>): (r: seq<string>)
    ensures |r| == |vs|
  {
    if vs == [] then [] else [message(vs[0])] + MapMessages(message, vs[1..])
  }

  lemma {:induction false} MapAt(message: Violation -> string, vs: seq<Violation>, i: int)
    requires 0 <= i < |vs|
    ensures MapMessages(message, vs)[i] == message(vs[i])
  {
    if i > 0 {
      MapAt(message, vs[1..], i - 1);
    }
  }

  lemma {:induction false} MapSnoc(message: Violation -> string, vs: seq<Violation>, v: Violation)
    ensures MapMessages(message, vs + [v]) == MapMessages(message, vs) + [message(v)]
  {
    if vs == [] {
      assert vs + [v] == [v];
    } else {
      assert (vs + [v])[0] == vs[0];
      assert (vs + [v])[1..] == vs[1..] + [v];
      MapSnoc(message, vs[1..], v);
    }
  }

  function ErrorMessages(fieldName: string, maxLength: int, vs: seq<Violation>): (r: seq<string>)
    ensures |r| == |vs|
  {
    MapMessages(MessageOf(fieldName, maxLength), vs)
  }

  /** The `i`-th message is the message of the `i`-th failed check. */
  lemma MessageAt(fieldName: string, maxLength: int, vs: seq<Violation>, i: int)
    requires 0 <= i < |vs|
    ensures ErrorMessages(fieldName, maxLength, vs)[i] == ErrorMessage(fieldName, maxLength, vs[i])
  {
    MapAt(MessageOf(fieldName, maxLength), vs, i);
  }

  /** The error messages of `validate(name, fieldName, maxLength, checkKakao)`. */
  function Errors(name: Nullable<string>, fieldName: string, maxLength: int, checkKakao: bool): (e: seq<string>)
    ensures Blank(name) ==> e == [ErrorMessage(fieldName, maxLength, Required)]
    ensures |e| <= 3
  {
    ErrorMessages(fieldName, maxLength, Violations(name, maxLength, checkKakao))
  }

  /** `validate(name, fieldName, maxLength, checkKakao)`: collects the messages of the failed checks,
      returning early after the "required" message. */
  method Validate(name: Nullable<string>, fieldName: string, maxLength: int, checkKakao: bool)
    returns (errors: seq<string>)
    ensures errors == ErrorMessages(fieldName, maxLength, Violations(name, maxLength, checkKakao))
  {
    errors := [];
    if name.Null? || IsBlank(name.value) {
      errors := errors + [ErrorMessage(fieldName, maxLength, Required)];
      return;
    }
    var s := name.value;
    ghost var found: seq<Violation> := [];
    if Utf16Length(s) > maxLength {
      MessagesSnoc(fieldName, maxLength, found, TooLong);
      errors := errors + [ErrorMessage(fieldName, maxLength, TooLong)];
    }
    found := Push(found, Utf16Length(s) > maxLength, TooLong);
    if !MatchesAllowedPattern(s) {
      MessagesSnoc(fieldName, maxLength, found, InvalidCharacters);
      errors := errors + [ErrorMessage(fieldName, maxLength, InvalidCharacters)];
    }
    found := Push(found, !MatchesAllowedPattern(s), InvalidCharacters);
    if checkKakao && Contains(s, KAKAO) {
      MessagesSnoc(fieldName, maxLength, found, KakaoNeedsApproval);
      errors := errors + [ErrorMessage(fieldName, maxLength, KakaoNeedsApproval)];
    }
    found := Push(found, checkKakao && Contains(s, KAKAO), KakaoNeedsApproval);
  }

  /** Adding the message of one more failed check at the end of the list. */
  lemma MessagesSnoc(fieldName: string, maxLength: int, vs: seq<Violation>, v: Violation)
    ensures ErrorMessages(fieldName, maxLength, vs + [v])
         == ErrorMessages(fieldName, maxLength, vs) + [ErrorMessage(fieldName, maxLength, v)]
  {
    MapSnoc(MessageOf(fieldName, maxLength), vs, v);
  }

  /** `validate(name, fieldName, maxLength)`: the three-argument overload never checks for 카카오. */
  method ValidateDefault(name: Nullable<string>, fieldName: string, maxLength: int) returns (errors: seq<string>)
    ensures errors == Errors(name, fieldName, maxLength, false)
    ensures forall i :: 0 <= i < |errors| ==> errors[i] != ErrorMessage(fieldName, maxLength, KakaoNeedsApproval)
  {
    errors := Validate(name, fieldName, maxLength, false);
    assert KakaoNeedsApproval !in Violations(name, maxLength, false);
    var vs := Violations(name, maxLength, false);
    forall i | 0 <= i < |errors|
      ensures errors[i] != ErrorMessage(fieldName, maxLength, KakaoNeedsApproval)
    {
      MessageAt(fieldName, maxLength, vs, i);
      assert vs[i] in vs;
      MessagesDistinct(fieldName, maxLength, vs[i], KakaoNeedsApproval);
    }
  }

  /** Characters that tell the four message texts apart: the 2nd, and for the two texts that
      both start with " contain", the 9th. */
  lemma TailMarks(maxLength: int, v: Violation)
    ensures |MessageTail(maxLength, v)| > 8
    ensures MessageTail(maxLength, v)[1] == match v
      case Required => 'i' case TooLong => 'm' case InvalidCharacters => 'c' case KakaoNeedsApproval => 'c'
    ensures v == InvalidCharacters ==> MessageTail(maxLength, v)[8] == 's'
    ensures v == KakaoNeedsApproval ==> MessageTail(maxLength, v)[8] == 'i'
  {
    match v {
      case Required => RequiredTailMark(maxLength);
      case TooLong => TooLongTailMark(maxLength);
      case InvalidCharacters => InvalidCharactersTailMarks(maxLength);
      case KakaoNeedsApproval => KakaoTailMarks(maxLength);
    }
  }

  lemma RequiredTailMark(maxLength: int)
    ensures |MessageTail(maxLength, Required)| > 8 && MessageTail(maxLength, Required)[1] == 'i'
  {
  }

  lemma TooLongTailMark(maxLength: int)
    ensures |MessageTail(maxLength, TooLong)| > 8 && MessageTail(maxLength, TooLong)[1] == 'm'
  {
    var p := " must be at most ";
    assert MessageTail(maxLength, TooLong) == p + (DecimalString(maxLength) + " characters.");
  }

  lemma InvalidCharactersTailMarks(maxLength: int)
    ensures var t := MessageTail(maxLength, InvalidCharacters); |t| > 8 && t[1] == 'c' && t[8] == 's'
  {
  }

  lemma KakaoTailMarks(maxLength: int)
    ensures var t := MessageTail(maxLength, KakaoNeedsApproval); |t| > 8 && t[1] == 'c' && t[8] == 'i'
  {
  }

  /** Different checks produce different messages, so the list of messages tells exactly which
      checks failed. */
  lemma MessagesDistinct(fieldName: string, maxLength: int, v: Violation, w: Violation)
    requires v != w
    ensures ErrorMessage(fieldName, maxLength, v) != ErrorMessage(fieldName, maxLength, w)
  {
    var a, b := MessageTail(maxLength, v), MessageTail(maxLength, w);
    assert ErrorMessage(fieldName, maxLength, v)[|fieldName|..] == a;
    assert ErrorMessage(fieldName, maxLength, w)[|fieldName|..] == b;
    TailMarks(maxLength, v);
    TailMarks(maxLength, w);
    assert a[1] != b[1] || a[8] != b[8];
  }

  /** A name gets no message exactly when it passes every check. */
  lemma NoErrorsIffAccepted(name: Nullable<string>, fieldName: string, maxLength: int, checkKakao: bool)
    ensures Errors(name, fieldName, maxLength, checkKakao) == [] <==>
              && !Blank(name)
              && Utf16Length(name.value) <= maxLength
              && (forall i :: 0 <= i < |name.value| ==> AllowedChar(name.value[i]))
              && !(checkKakao && Contains(name.value, KAKAO))
  {
    var v := Violations(name, maxLength, checkKakao);
    if v != [] {
      assert v[0] in v;
    }
  }

  /** A name that is both too long and has a disallowed character gets at least two messages
      (the length message first). */
  lemma TooLongAndInvalidGivesTwoErrors(name: Nullable<string>, fieldName: string, maxLength: int, checkKakao: bool)
    requires !Blank(name) && Utf16Length(name.value) > maxLength
    requires exists i :: 0 <= i < |name.value| && !AllowedChar(name.value[i])
    ensures |Errors(name, fieldName, maxLength, checkKakao)| >= 2
    ensures Errors(name, fieldName, maxLength, checkKakao)[0] == ErrorMessage(fieldName, maxLength, TooLong)
    ensures Errors(name, fieldName, maxLength, checkKakao)[1] == ErrorMessage(fieldName, maxLength, InvalidCharacters)
  {
    PatternMatchesIffAllAllowed(name.value);
    var v := Violations(name, maxLength, checkKakao);
    assert v[0] == TooLong && v[1] == InvalidCharacters;
    MessageAt(fieldName, maxLength, v, 0);
    MessageAt(fieldName, maxLength, v, 1);
  }
}
