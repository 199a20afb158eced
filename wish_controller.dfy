/** WishController (gift.wish): the /api/wishes endpoints, always acting for the member the
    LoginMember resolver produced. */
module WishController {
  import opened Common
  import opened Store
  import opened LoginMemberArgumentResolver
  import WishService

  /** The answer of POST /api/wishes: 200 with the wish already there, or 201 with a new one. */
  datatype Added = Added(status: int, wish: Entry<Wish>)

  const OK: int := 200
  const CREATED: int := 201

  /** GET: the caller's own wishes and nobody else's. */
  function GetWishes(s: Tables, member: AuthenticatedMember): (r: map<int, Wish>)
    ensures forall id :: id in r ==> id in s.wishes && r[id] == s.wishes[id] && r[id].memberId == member.id
    ensures forall id :: id in s.wishes && s.wishes[id].memberId == member.id ==> id in r
  {
    WishService.FindByMemberId(s, member.id)
  }

  /** POST: a wish the member already has is answered with 200 and nothing is saved; otherwise
      the service adds it and the answer is 201. Only a duplicate row left by some other path
      (a query that matches several rows) fails without a mapped status. */
  ghost function AddWishSpec(s: Tables, member: AuthenticatedMember, productId: int): (st: Step<Added>)
    requires WellFormed(s)
    ensures WellFormed(st.next)
    ensures st.result.Err? ==> st.next == s
    ensures WishService.FindByMemberIdAndProductId(s, member.id, productId).OneMatch? ==>
              && st.result == Ok(Added(OK, WishService.FindByMemberIdAndProductId(s, member.id, productId).entry))
              && st.next == s
    ensures WishService.FindByMemberIdAndProductId(s, member.id, productId).NoMatch? ==>
              var added := WishService.AddWishSpec(s, member.id, productId);
              && st.next == added.next
              && (added.result.Err? ==> st.result == Err(added.result.error))
              && (added.result.Ok? ==> st.result == Ok(Added(CREATED, added.result.value)))
    ensures st.result.Ok? ==>
              && st.result.value.wish.value == Wish(member.id, productId)
              && st.result.value.wish.id in st.next.wishes
              && st.next.wishes[st.result.value.wish.id] == Wish(member.id, productId)
    ensures WishService.WishesUnique(s.wishes) ==> WishService.WishesUnique(st.next.wishes)
  {
    match WishService.FindByMemberIdAndProductId(s, member.id, productId)
    case OneMatch(existing) => Step(Ok(Added(OK, existing)), s)
    case ManyMatches => Step(Err(Internal(Unseen("WishRepository.findByMemberIdAndProductId"))), s)
    case NoMatch =>
      var added := WishService.AddWishSpec(s, member.id, productId);
      assert forall id :: id in s.wishes ==> s.wishes[id] != Wish(member.id, productId) by {
        assert WishService.WishIds(s.wishes, member.id, productId) == {};
      }
      match added.result
      case Err(e) => Step(Err(e), added.next)
      case Ok(wish) => Step(Ok(Added(CREATED, wish)), added.next)
  }

  method AddWish(db: Database, member: AuthenticatedMember, productId: int) returns (r: Result<Added>)
    requires db.Valid()
    modifies db
    ensures db.Valid()
    ensures Step(r, db.Snapshot()) == AddWishSpec(old(db.Snapshot()), member, productId)
  {
    var ids := WishService.WishIds(db.wishes, member.id, productId);
    var existing := PickRow(db.wishes, ids);
    match existing
    case OneMatch(wish) =>
      return Ok(Added(OK, wish));
    case ManyMatches =>
      return Err(Internal(Unseen("WishRepository.findByMemberIdAndProductId")));
    case NoMatch =>
      var added := WishService.AddWish(db, member.id, productId);
      if added.Err? {
        return Err(added.error);
      }
      return Ok(Added(CREATED, added.value));
  }

  /** DELETE /{id}: the service's `removeWish` on behalf of the caller. */
  method RemoveWish(db: Database, member: AuthenticatedMember, wishId: int) returns (r: Result<()>)
    requires db.Valid()
    modifies db
    ensures db.Valid()
    ensures Step(r, db.Snapshot()) == WishService.RemoveWishSpec(old(db.Snapshot()), member.id, wishId)
  {
    r := WishService.RemoveWish(db, member.id, wishId);
  }

  /** Posting the same wish twice changes nothing the second time: the tables stay as the first
      post left them, and the second answer is 200 with the wish the first one returned (or the
      same error). */
  lemma {:induction false} AddWishIdempotent(s: Tables, member: AuthenticatedMember, productId: int)
    requires WellFormed(s)
    ensures var first := AddWishSpec(s, member, productId);
            var second := AddWishSpec(first.next, member, productId);
            && second.next == first.next
            && (first.result.Ok? ==> second.result == Ok(Added(OK, first.result.value.wish)))
            && (first.result.Err? ==> second.result == first.result)
  {
    var first := AddWishSpec(s, member, productId);
    var found := WishService.FindByMemberIdAndProductId(s, member.id, productId);
    if found.NoMatch? && first.result.Ok? {
      var id := s.nextId;
      var w := Wish(member.id, productId);
      assert WishService.WishIds(s.wishes, member.id, productId) == {};
      assert first.next.wishes == s.wishes[id := w];
      assert WishService.WishIds(first.next.wishes, member.id, productId) == {id} by {
        assert forall k :: k in s.wishes ==> s.wishes[k] != w;
      }
    }
  }

  /** Posting a wish the member does not yet have, for an existing product, answers 201 and adds
      exactly that one wish. */
  lemma NewWishIsCreated(s: Tables, member: AuthenticatedMember, productId: int)
    requires WellFormed(s) && productId in s.products
    requires forall id :: id in s.wishes ==> s.wishes[id] != Wish(member.id, productId)
    ensures AddWishSpec(s, member, productId).result == Ok(Added(CREATED, Entry(s.nextId, Wish(member.id, productId))))
    ensures AddWishSpec(s, member, productId).next.wishes == s.wishes[s.nextId := Wish(member.id, productId)]
  {
    var ids := WishService.WishIds(s.wishes, member.id, productId);
    assert forall k :: k !in ids;
    assert ids == {};
  }
}
