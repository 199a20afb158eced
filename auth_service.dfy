/** AuthService (gift.auth): registration and password login. The JWT issuer is a parameter
    `createToken`, an arbitrary function of the member's email. */
module AuthService {
  import opened Common
  import opened Store
  import MemberService

  const BAD_CREDENTIALS: string := "Invalid email or password."

  /** `memberRepository.findByEmail(email)`, a query Spring Data expects to match at most one row. */
  ghost function MemberByEmail(s: Tables, email: string): (r: Match<Member>)
    ensures r.OneMatch? ==>
              r.entry.id in s.members && r.entry.value == s.members[r.entry.id] && r.entry.value.email == email
    ensures r.NoMatch? <==> !MemberService.EmailTaken(s.members, email)
  {
    var ids := set id | id in s.members && s.members[id].email == email;
    var r := Pick(s.members, ids);
    assert r.NoMatch? ==> forall id :: id in s.members ==> id !in ids;
    r
  }

  /** `register(email, password)`: refuses a registered email with the table unchanged;
      otherwise adds exactly one member and returns the token issued for its email. */
  function RegisterSpec(s: Tables, email: string, password: string, createToken: string -> string): (st: Step<string>)
    requires WellFormed(s)
    ensures WellFormed(st.next)
    ensures st.result.Err? <==> MemberService.EmailTaken(s.members, email)
    ensures st.result.Err? ==> st.result.error == IllegalArgument(Text(MemberService.EMAIL_TAKEN)) && st.next == s
    ensures st.result.Ok? ==>
              && st.result.value == createToken(email)
              && st.next == s.(members := s.members[s.nextId := MemberService.NewMember(email, password)],
                               nextId := s.nextId + 1)
  {
    var created := MemberService.CreateSpec(s, email, password);
    match created.result
    case Err(e) => Step(Err(e), created.next)
    case Ok(member) => Step(Ok(createToken(member.value.email)), created.next)
  }

  method Register(db: Database, email: string, password: string, createToken: string -> string)
    returns (r: Result<string>)
    requires db.Valid()
    modifies db
    ensures db.Valid()
    ensures Step(r, db.Snapshot()) == RegisterSpec(old(db.Snapshot()), email, password, createToken)
  {
    if MemberService.EmailTaken(db.members, email) {
      return Err(IllegalArgument(Text(MemberService.EMAIL_TAKEN)));
    }
    var member := MemberService.NewMember(email, password);
    var id := db.GenerateId();
    db.members := db.members[id := member];
    r := Ok(createToken(member.email));
  }

  /** `login(email, password)`: an unknown email, a member without a password and a wrong
      password all fail with the same IllegalArgumentException; success returns the token for
      the member's email. Several members with one email make the query itself fail. */
  ghost function LoginSpec(s: Tables, email: string, password: string, createToken: string -> string): (r: Result<string>)
    ensures r.Ok? <==> MemberByEmail(s, email).OneMatch? && MemberByEmail(s, email).entry.value.password == NonNull(password)
    ensures r.Ok? ==> r.value == createToken(email)
    ensures !MemberService.EmailTaken(s.members, email) ==> r == Err(IllegalArgument(Text(BAD_CREDENTIALS)))
    ensures MemberByEmail(s, email).OneMatch? && MemberByEmail(s, email).entry.value.password != NonNull(password)
            ==> r == Err(IllegalArgument(Text(BAD_CREDENTIALS)))
    ensures r.Err? ==> r.error.IllegalArgument? || MemberByEmail(s, email).ManyMatches?
  {
    match MemberByEmail(s, email)
    case NoMatch => Err(IllegalArgument(Text(BAD_CREDENTIALS)))
    case ManyMatches => Err(Internal(Unseen("MemberRepository.findByEmail")))
    case OneMatch(member) =>
      if member.value.password.Null? || member.value.password.value != password then
        Err(IllegalArgument(Text(BAD_CREDENTIALS)))
      else Ok(createToken(member.value.email))
  }

  /** `login` only reads the member table. */
  method Login(db: Database, email: string, password: string, createToken: string -> string)
    returns (r: Result<string>)
    ensures r == LoginSpec(db.Snapshot(), email, password, createToken)
  {
    var ids := set id | id in db.members && db.members[id].email == email;
    var found := PickRow(db.members, ids);
    match found
    case NoMatch =>
      return Err(IllegalArgument(Text(BAD_CREDENTIALS)));
    case ManyMatches =>
      return Err(Internal(Unseen("MemberRepository.findByEmail")));
    case OneMatch(member) =>
      if member.value.password.Null? || member.value.password.value != password {
        return Err(IllegalArgument(Text(BAD_CREDENTIALS)));
      }
      return Ok(createToken(member.value.email));
  }

  /** Registering and then logging in with the same email and password succeeds and yields the
      same token as the registration. */
  lemma {:induction false} RegisterThenLogin(s: Tables, email: string, password: string, createToken: string -> string)
    requires WellFormed(s)
    requires !MemberService.EmailTaken(s.members, email)
    ensures RegisterSpec(s, email, password, createToken).result == Ok(createToken(email))
    ensures LoginSpec(RegisterSpec(s, email, password, createToken).next, email, password, createToken)
         == Ok(createToken(email))
  {
    var next := RegisterSpec(s, email, password, createToken).next;
    var id := s.nextId;
    var ids := set k | k in next.members && next.members[k].email == email;
    assert forall k :: k in s.members ==> s.members[k].email != email;
    assert ids == {id};
  }

  /** A member who has no password (one created through Kakao) can never log in with a
      password. */
  lemma NoPasswordNeverLogsIn(s: Tables, id: int, password: string, createToken: string -> string)
    requires id in s.members && s.members[id].password.Null?
    requires MemberService.EmailsUnique(s.members)
    ensures LoginSpec(s, s.members[id].email, password, createToken) == Err(IllegalArgument(Text(BAD_CREDENTIALS)))
  {
    var email := s.members[id].email;
    var ids := set k | k in s.members && s.members[k].email == email;
    forall k | k in ids ensures k == id {
    }
    assert ids == {id};
  }

  /** Once `update` has given two members the same email, logging in with that email fails with
      an error the exception handler does not map (an internal server error). */
  lemma DuplicateEmailBreaksLogin(s: Tables, a: int, b: int, password: string, createToken: string -> string)
    requires a in s.members && b in s.members && a != b && s.members[a].email == s.members[b].email
    ensures LoginSpec(s, s.members[a].email, password, createToken).Err?
    ensures LoginSpec(s, s.members[a].email, password, createToken).error.Internal?
  {
    var email := s.members[a].email;
    var ids := set k | k in s.members && s.members[k].email == email;
    assert a in ids && b in ids;
  }
}
