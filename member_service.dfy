/** MemberService (gift.member): member CRUD and point charging, plus the point rules of the
    Member entity that the services rely on. */
module MemberService {
  import opened Common
  import opened Store

  /** `new Member(email, password)`: no points and no Kakao token yet. */
  function NewMember(email: string, password: string): (m: Member)
    ensures m.email == email && m.password == NonNull(password)
    ensures m.point == 0 && m.kakaoAccessToken.Null?
  {
    Member(email, NonNull(password), 0, Null)
  }

  /** `Member.chargePoint(amount)`: only a positive amount may be charged. Member.java is not
      part of this model; its message is not known. */
  function ChargeMember(member: Member, amount: int): (r: Result<Member>)
    ensures r.Ok? <==> amount > 0
    ensures r.Ok? ==> r.value == member.(point := member.point + amount)
    ensures r.Err? ==> r.error == IllegalArgument(Unseen("Member.chargePoint"))
  {
    if amount <= 0 then Err(IllegalArgument(Unseen("Member.chargePoint")))
    else Ok(member.(point := member.point + amount))
  }

  /** `Member.deductPoint(amount)`: the amount must be positive and at most the balance, so the
      balance never goes negative. */
  function DeductMember(member: Member, amount: int): (r: Result<Member>)
    ensures r.Ok? <==> 0 < amount <= member.point
    ensures r.Ok? ==> r.value == member.(point := member.point - amount) && r.value.point >= 0
    ensures r.Err? ==> r.error == IllegalArgument(Unseen("Member.deductPoint"))
  {
    if amount <= 0 || amount > member.point then Err(IllegalArgument(Unseen("Member.deductPoint")))
    else Ok(member.(point := member.point - amount))
  }

  /** `existsByEmail(email)`. */
  predicate EmailTaken(members: map<int, Member>, email: string)
  {
    exists id :: id in members && members[id].email == email
  }

  /** No two members share an email. */
  predicate EmailsUnique(members: map<int, Member>)
  {
    forall a, b :: a in members && b in members && a != b ==> members[a].email != members[b].email
  }

  /** `findAll()`: every stored member. */
  function FindAll(s: Tables): (r: set<Entry<Member>>)
    ensures forall e :: e in r <==> e.id in s.members && e.value == s.members[e.id]
    ensures forall id :: id in s.members ==> Entry(id, s.members[id]) in r
  {
    set id | id in s.members :: Entry(id, s.members[id])
  }

  /** `findById(id)`: an unknown id is an IllegalArgumentException here, not NotFound. */
  function FindById(s: Tables, id: int): (r: Result<Member>)
    ensures r.Ok? <==> id in s.members
    ensures r.Ok? ==> r.value == s.members[id]
    ensures r.Err? ==> r.error == IllegalArgument(Text(IdText("Member not found. id=", id)))
  {
    if id in s.members then Ok(s.members[id])
    else Err(IllegalArgument(Text(IdText("Member not found. id=", id))))
  }

  const EMAIL_TAKEN: string := "Email is already registered."

  /** `create(email, password)` (and the insert of `AuthService.register`): a registered email is
      refused and nothing is saved; otherwise exactly one member is added, with no points.
      Email uniqueness is preserved. */
  function CreateSpec(s: Tables, email: string, password: string): (st: Step<Entry<Member>>)
    requires WellFormed(s)
    ensures WellFormed(st.next)
    ensures st.result.Err? <==> EmailTaken(s.members, email)
    ensures st.result.Err? ==> st.result.error == IllegalArgument(Text(EMAIL_TAKEN)) && st.next == s
    ensures st.result.Ok? ==>
              && st.result.value.id !in s.members
              && st.result.value.value == NewMember(email, password)
              && st.next == s.(members := s.members[st.result.value.id := NewMember(email, password)],
                               nextId := s.nextId + 1)
    ensures EmailsUnique(s.members) ==> EmailsUnique(st.next.members)
  {
    if EmailTaken(s.members, email) then Step(Err(IllegalArgument(Text(EMAIL_TAKEN))), s)
    else
      var id := s.nextId;
      Step(Ok(Entry(id, NewMember(email, password))),
           s.(members := s.members[id := NewMember(email, password)], nextId := id + 1))
  }

  method Create(db: Database, email: string, password: string) returns (r: Result<Entry<Member>>)
    requires db.Valid()
    modifies db
    ensures db.Valid()
    ensures Step(r, db.Snapshot()) == CreateSpec(old(db.Snapshot()), email, password)
  {
    if EmailTaken(db.members, email) {
      return Err(IllegalArgument(Text(EMAIL_TAKEN)));
    }
    var member := NewMember(email, password);
    var id := db.GenerateId();
    db.members := db.members[id := member];
    r := Ok(Entry(id, member));
  }

  /** `update(id, email, password)`: replaces email and password of that member, keeping points
      and Kakao token; an unknown id fails before any save. There is no duplicate-email check. */
  function UpdateSpec(s: Tables, id: int, email: string, password: string): (st: Step<()>)
    ensures WellFormed(s) ==> WellFormed(st.next)
    ensures st.result.Err? <==> id !in s.members
    ensures st.result.Err? ==> st.result.error == IllegalArgument(Text(IdText("Member not found. id=", id))) && st.next == s
    ensures st.result.Ok? ==>
              st.next == s.(members := s.members[id := s.members[id].(email := email, password := NonNull(password))])
  {
    match FindById(s, id)
    case Err(e) => Step(Err(e), s)
    case Ok(member) =>
      Step(Ok(()), s.(members := s.members[id := member.(email := email, password := NonNull(password))]))
  }

  method Update(db: Database, id: int, email: string, password: string) returns (r: Result<()>)
    requires db.Valid()
    modifies db
    ensures db.Valid()
    ensures Step(r, db.Snapshot()) == UpdateSpec(old(db.Snapshot()), id, email, password)
  {
    var found := FindById(db.Snapshot(), id);
    if found.Err? {
      return Err(found.error);
    }
    var member := found.value.(email := email, password := NonNull(password));
    db.members := db.members[id := member];
    r := Ok(());
  }

  /** `chargePoint(id, amount)`: an unknown id or a non-positive amount fails and saves nothing;
      otherwise the balance of that member grows by exactly `amount`. */
  function ChargePointSpec(s: Tables, id: int, amount: int): (st: Step<()>)
    ensures WellFormed(s) ==> WellFormed(st.next)
    ensures st.result.Err? ==> st.next == s
    ensures id !in s.members ==> st.result == Err(IllegalArgument(Text(IdText("Member not found. id=", id))))
    ensures st.result.Ok? <==> id in s.members && amount > 0
    ensures id in s.members && amount <= 0 ==> st.result == Err(IllegalArgument(Unseen("Member.chargePoint")))
    ensures st.result.Ok? ==>
              st.next == s.(members := s.members[id := s.members[id].(point := s.members[id].point + amount)])
    ensures EmailsUnique(s.members) ==> EmailsUnique(st.next.members)
  {
    match FindById(s, id)
    case Err(e) => Step(Err(e), s)
    case Ok(member) =>
      match ChargeMember(member, amount)
      case Err(e) => Step(Err(e), s)
      case Ok(charged) => Step(Ok(()), s.(members := s.members[id := charged]))
  }

  method ChargePoint(db: Database, id: int, amount: int) returns (r: Result<()>)
    requires db.Valid()
    modifies db
    ensures db.Valid()
    ensures Step(r, db.Snapshot()) == ChargePointSpec(old(db.Snapshot()), id, amount)
  {
    var found := FindById(db.Snapshot(), id);
    if found.Err? {
      return Err(found.error);
    }
    var charged := ChargeMember(found.value, amount);
    if charged.Err? {
      return Err(charged.error);
    }
    db.members := db.members[id := charged.value];
    r := Ok(());
  }

  /** `delete(id)`: `deleteById` removes the row if there is one and silently does nothing
      otherwise. */
  function DeleteSpec(s: Tables, id: int): (st: Step<()>)
    ensures WellFormed(s) ==> WellFormed(st.next)
    ensures st.result.Ok?
    ensures st.next.members.Keys == s.members.Keys - {id}
    ensures forall k :: k in st.next.members ==> st.next.members[k] == s.members[k]
    ensures st.next == s.(members := st.next.members)
    ensures EmailsUnique(s.members) ==> EmailsUnique(st.next.members)
  {
    Step(Ok(()), s.(members := s.members - {id}))
  }

  method Delete(db: Database, id: int) returns (r: Result<()>)
    requires db.Valid()
    modifies db
    ensures db.Valid()
    ensures Step(r, db.Snapshot()) == DeleteSpec(old(db.Snapshot()), id)
  {
    db.members := db.members - {id};
    r := Ok(());
  }

  /** Charges accumulate: two successful charges add up to one charge of the sum. */
  lemma {:induction false} ChargesAccumulate(s: Tables, id: int, a: int, b: int)
    requires id in s.members && a > 0 && b > 0
    ensures ChargePointSpec(ChargePointSpec(s, id, a).next, id, b).next == ChargePointSpec(s, id, a + b).next
  {
    var s1 := ChargePointSpec(s, id, a).next;
    assert s1.members[id].point == s.members[id].point + a;
  }

  /** Unlike `create`, `update` can give a member an email another member already has. */
  lemma UpdateCanDuplicateEmail()
    ensures var s := Tables(map[], map[], map[], map[1 := NewMember("a@x", "p"), 2 := NewMember("b@x", "q")], map[], map[], 3);
            && EmailsUnique(s.members)
            && UpdateSpec(s, 2, "a@x", "q").result.Ok?
            && !EmailsUnique(UpdateSpec(s, 2, "a@x", "q").next.members)
  {
    var s := Tables(map[], map[], map[], map[1 := NewMember("a@x", "p"), 2 := NewMember("b@x", "q")], map[], map[], 3);
    var after := UpdateSpec(s, 2, "a@x", "q").next.members;
    assert after[1].email == after[2].email;
  }
}
