/** LoginMemberArgumentResolver (gift.auth): the gate in front of every endpoint that takes a
    `@LoginMember Member`. Token checking itself is a parameter `extractMember`, standing for
    AuthenticationResolver.extractMember, which yields the member a header value names or null. */
module LoginMemberArgumentResolver {
  import opened Common
  import opened Store

  /** The member row the extractor yields, with its id. */
  datatype AuthenticatedMember = AuthenticatedMember(id: int, member: Member)

  /** The declared type of a controller parameter, as far as `isAssignableFrom` is concerned. */
  datatype ParameterType = MemberType | MemberSubtype | UnrelatedType

  datatype MethodParameter = MethodParameter(hasLoginMemberAnnotation: bool, parameterType: ParameterType)

  /** `supportsParameter`: the parameter carries `@LoginMember` and its type is Member or a
      subclass of it. */
  function SupportsParameter(parameter: MethodParameter): (b: bool)
    ensures b ==> parameter.hasLoginMemberAnnotation
    ensures b <==> parameter.hasLoginMemberAnnotation && parameter.parameterType != UnrelatedType
  {
    parameter.hasLoginMemberAnnotation
    && match parameter.parameterType
       case MemberType => true
       case MemberSubtype => true
       case UnrelatedType => false
  }

  const MISSING_HEADER: string := "Authorization header is required."
  const INVALID_TOKEN: string := "Invalid or expired token."

  /** `resolveArgument`: without an Authorization header the request is Unauthorized before any
      token is looked at; the raw header value goes to the extractor unchanged; a null member is
      Unauthorized; otherwise the argument is exactly the extracted member. Nothing but
      Unauthorized can come out of it. */
  function ResolveArgument(authorization: Nullable<string>, extractMember: string -> Nullable<AuthenticatedMember>)
    : (r: Result<AuthenticatedMember>)
    ensures r.Err? ==> r.error.Unauthorized?
    ensures authorization.Null? ==> r == Err(Unauthorized(Text(MISSING_HEADER)))
    ensures r.Ok? <==> authorization.NonNull? && extractMember(authorization.value).NonNull?
    ensures r.Ok? ==> extractMember(authorization.value) == NonNull(r.value)
    ensures authorization.NonNull? && extractMember(authorization.value).Null? ==>
              r == Err(Unauthorized(Text(INVALID_TOKEN)))
  {
    if authorization.Null? then Err(Unauthorized(Text(MISSING_HEADER)))
    else
      var member := extractMember(authorization.value);
      if member.Null? then Err(Unauthorized(Text(INVALID_TOKEN)))
      else Ok(member.value)
  }

  /** Without a header the extractor is never consulted: the outcome is the same whatever it
      would have answered. */
  lemma MissingHeaderIgnoresExtractor(e1: string -> Nullable<AuthenticatedMember>, e2: string -> Nullable<AuthenticatedMember>)
    ensures ResolveArgument(Null, e1) == ResolveArgument(Null, e2)
  {
  }
}
