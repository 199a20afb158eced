/** Shared vocabulary of the gift-shop backend: null references, the exceptions the services
    throw, and the few pieces of java.lang the services rely on (decimal rendering of numbers,
    String.join, 32-bit int arithmetic). */
module Common {

  /** A Java reference that may be null (also used for an empty java.util.Optional). */
  datatype Nullable<+T> = Null | NonNull(value: T)

  /** The text of an exception. */
  datatype Message =
    | Text(text: string)        // built by the modelled code
    | Unseen(origin: string)    // thrown inside an entity class whose source is not part of this model

  /** The exceptions the services raise. */
  datatype Error =
    | IllegalArgument(message: Message)   // java.lang.IllegalArgumentException
    | NotFound(message: Message)          // java.util.NoSuchElementException
    | Unauthorized(message: Message)      // gift.auth.UnauthorizedException
    | Forbidden(message: Message)         // gift.auth.ForbiddenException
    | Internal(message: Message)          // any other runtime exception (no handler in GlobalExceptionHandler)

  datatype Result<+T> = Ok(value: T) | Err(error: Error)

  /** Outcome of a `void` check that either returns or throws. */
  datatype Outcome = Pass | Fail(error: Error)

  /** The decimal digit `d` as a character. */
  function DigitChar(d: int): (c: char)
    requires 0 <= d < 10
    ensures '0' <= c <= '9' && c as int - '0' as int == d
  {
    (('0' as int) + d) as char
  }

  /** The value of a string of decimal digits. */
  function DigitsValue(s: string): nat
    requires forall i :: 0 <= i < |s| ==> '0' <= s[i] <= '9'
  {
    if s == [] then 0 else DigitsValue(s[..|s| - 1]) * 10 + (s[|s| - 1] as int - '0' as int)
  }

  /** Decimal rendering of a natural number, as Long.toString / Integer.toString print it. */
  function NatString(n: nat): (r: string)
    ensures |r| >= 1
    ensures forall i :: 0 <= i < |r| ==> '0' <= r[i] <= '9'
    ensures r[0] == '0' ==> n == 0
  {
    if n < 10 then [DigitChar(n)] else NatString(n / 10) + [DigitChar(n % 10)]
  }

  /** Reading the rendered digits back gives the number: the rendering loses nothing. */
  lemma {:induction false} NatStringRoundTrip(n: nat)
    ensures DigitsValue(NatString(n)) == n
  {
    if n >= 10 {
      var r := NatString(n);
      assert r[..|r| - 1] == NatString(n / 10);
      NatStringRoundTrip(n / 10);
    }
  }

  /** Decimal rendering of an int or a long (string concatenation `"..." + id`): a minus sign
      exactly for a negative number, then at least one decimal digit. */
  function DecimalString(n: int): (r: string)
    ensures |r| >= 1
    ensures r[0] == '-' <==> n < 0
    ensures n < 0 ==> |r| >= 2
    ensures forall i :: (if n < 0 then 1 else 0) <= i < |r| ==> '0' <= r[i] <= '9'
  {
    if n < 0 then "-" + NatString(-n) else NatString(n)
  }

  /** Reading a rendered number back, sign included, gives the number. */
  lemma DecimalStringRoundTrip(n: int)
    ensures var r := DecimalString(n);
            n < 0 ==> DigitsValue(r[1..]) == -n
    ensures n >= 0 ==> DigitsValue(DecimalString(n)) == n
  {
    if n < 0 {
      assert DecimalString(n)[1..] == NatString(-n);
      NatStringRoundTrip(-n);
    } else {
      NatStringRoundTrip(n);
    }
  }

  /** String.join(sep, parts). */
  function Join(sep: string, parts: seq<string>): string
  {
    if |parts| == 0 then ""
    else if |parts| == 1 then parts[0]
    else parts[0] + sep + Join(sep, parts[1..])
  }

  /** The total length of the parts. */
  function TotalLength(parts: seq<string>): nat
  {
    if parts == [] then 0 else |parts[0]| + TotalLength(parts[1..])
  }

  /** The joined length is the parts' total length plus one separator per gap; no parts give
      the empty string and a single part is returned unchanged. */
  lemma {:induction false} JoinLength(sep: string, parts: seq<string>)
    ensures |parts| >= 1 ==> |Join(sep, parts)| == TotalLength(parts) + (|parts| - 1) * |sep|
    ensures |parts| == 0 ==> Join(sep, parts) == ""
    ensures |parts| == 1 ==> Join(sep, parts) == parts[0]
  {
    if |parts| > 1 {
      JoinLength(sep, parts[1..]);
    }
  }

  /** Joining one more part appends a separator and that part, so (with the zero- and one-part
      cases) the joined string is every part in order with one separator between neighbours. */
  lemma {:induction false} JoinSnoc(sep: string, parts: seq<string>)
    requires |parts| >= 2
    ensures Join(sep, parts) == Join(sep, parts[..|parts| - 1]) + sep + parts[|parts| - 1]
  {
    var n := |parts|;
    if n > 2 {
      JoinSnoc(sep, parts[1..]);
      assert parts[1..][..n - 2] == parts[..n - 1][1..];
      assert parts[1..][n - 2] == parts[n - 1];
    } else {
      assert parts[1..] == [parts[1]];
      assert parts[..1] == [parts[0]];
    }
  }

  const INT_MIN: int := -0x8000_0000
  const INT_MAX: int := 0x7FFF_FFFF

  predicate InInt(x: int) { INT_MIN <= x <= INT_MAX }

  /** The value a Java `int` expression takes when its mathematical value is `x`
      (two's-complement wrap-around). */
  function WrapInt(x: int): (r: int)
    ensures InInt(r)
    ensures (x - r) % 0x1_0000_0000 == 0
    ensures InInt(x) ==> r == x
  {
    (x - INT_MIN) % 0x1_0000_0000 + INT_MIN
  }
}
