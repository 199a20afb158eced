/** WishService (gift.wish): a member's wish list. */
module WishService {
  import opened Common
  import opened Store
  import ProductService

  /** `findByMemberId(memberId, pageable)`: the wishes of that member (paging is not modelled). */
  function FindByMemberId(s: Tables, memberId: int): (r: map<int, Wish>)
    ensures forall id :: id in r <==> id in s.wishes && s.wishes[id].memberId == memberId
    ensures forall id :: id in r ==> r[id] == s.wishes[id]
  {
    Restrict(s.wishes, set id | id in s.wishes && s.wishes[id].memberId == memberId)
  }

  /** The ids of the wishes of `memberId` for `productId`. */
  function WishIds(wishes: map<int, Wish>, memberId: int, productId: int): (ids: set<int>)
    ensures ids <= wishes.Keys
    ensures forall id :: id in ids <==> id in wishes && wishes[id] == Wish(memberId, productId)
  {
    set id | id in wishes && wishes[id] == Wish(memberId, productId)
  }

  /** `findByMemberIdAndProductId(memberId, productId)`: a derived query returning `Optional`,
      which fails outright when more than one row matches. */
  ghost function FindByMemberIdAndProductId(s: Tables, memberId: int, productId: int): (r: Match<Wish>)
    ensures r.NoMatch? <==> WishIds(s.wishes, memberId, productId) == {}
    ensures r.OneMatch? ==>
              && WishIds(s.wishes, memberId, productId) == {r.entry.id}
              && r.entry.value == Wish(memberId, productId)
  {
    Pick(s.wishes, WishIds(s.wishes, memberId, productId))
  }

  /** No member wishes for the same product twice. */
  predicate WishesUnique(wishes: map<int, Wish>)
  {
    forall a, b :: a in wishes && b in wishes && a != b ==> wishes[a] != wishes[b]
  }

  /** `addWish(memberId, productId)`: the product must exist; then a new wish is saved, whether or
      not the member already wishes for it. */
  function AddWishSpec(s: Tables, memberId: int, productId: int): (st: Step<Entry<Wish>>)
    requires WellFormed(s)
    ensures WellFormed(st.next)
    ensures st.result.Err? <==> productId !in s.products
    ensures st.result.Err? ==>
              st.result.error == NotFound(Text(IdText("Product not found. id=", productId))) && st.next == s
    ensures st.result.Ok? ==>
              && st.result.value == Entry(s.nextId, Wish(memberId, productId))
              && st.result.value.id !in s.wishes
              && st.next == s.(wishes := s.wishes[s.nextId := Wish(memberId, productId)], nextId := s.nextId + 1)
  {
    match ProductService.FindById(s, productId)
    case Err(e) => Step(Err(e), s)
    case Ok(_) =>
      var id := s.nextId;
      Step(Ok(Entry(id, Wish(memberId, productId))),
           s.(wishes := s.wishes[id := Wish(memberId, productId)], nextId := id + 1))
  }

  method AddWish(db: Database, memberId: int, productId: int) returns (r: Result<Entry<Wish>>)
    requires db.Valid()
    modifies db
    ensures db.Valid()
    ensures Step(r, db.Snapshot()) == AddWishSpec(old(db.Snapshot()), memberId, productId)
  {
    var product := ProductService.FindById(db.Snapshot(), productId);
    if product.Err? {
      return Err(product.error);
    }
    var wish := Wish(memberId, productId);
    var id := db.GenerateId();
    db.wishes := db.wishes[id := wish];
    r := Ok(Entry(id, wish));
  }

  const FOREIGN_WISH: string := "Cannot delete another member's wish."

  /** `removeWish(memberId, wishId)`: an unknown wish is NotFound, somebody else's wish is
      Forbidden, and only the owner's own wish is deleted. */
  function RemoveWishSpec(s: Tables, memberId: int, wishId: int): (st: Step<()>)
    ensures WellFormed(s) ==> WellFormed(st.next)
    ensures st.result.Err? ==> st.next == s
    ensures wishId !in s.wishes ==> st.result == Err(NotFound(Text(IdText("Wish not found. id=", wishId))))
    ensures wishId in s.wishes && s.wishes[wishId].memberId != memberId ==>
              st.result == Err(Forbidden(Text(FOREIGN_WISH)))
    ensures st.result.Ok? <==> wishId in s.wishes && s.wishes[wishId].memberId == memberId
    ensures st.result.Ok? ==> st.next == s.(wishes := s.wishes - {wishId})
    ensures WishesUnique(s.wishes) ==> WishesUnique(st.next.wishes)
  {
    if wishId !in s.wishes then Step(Err(NotFound(Text(IdText("Wish not found. id=", wishId)))), s)
    else if s.wishes[wishId].memberId != memberId then Step(Err(Forbidden(Text(FOREIGN_WISH))), s)
    else Step(Ok(()), s.(wishes := s.wishes - {wishId}))
  }

  method RemoveWish(db: Database, memberId: int, wishId: int) returns (r: Result<()>)
    requires db.Valid()
    modifies db
    ensures db.Valid()
    ensures Step(r, db.Snapshot()) == RemoveWishSpec(old(db.Snapshot()), memberId, wishId)
  {
    if wishId !in db.wishes {
      return Err(NotFound(Text(IdText("Wish not found. id=", wishId))));
    }
    var wish := db.wishes[wishId];
    if wish.memberId != memberId {
      return Err(Forbidden(Text(FOREIGN_WISH)));
    }
    db.wishes := db.wishes - {wishId};
    r := Ok(());
  }

  /** A member can never remove a wish of another member: the wish table is untouched. */
  lemma OthersWishesAreSafe(s: Tables, memberId: int, wishId: int)
    requires wishId in s.wishes && s.wishes[wishId].memberId != memberId
    ensures RemoveWishSpec(s, memberId, wishId).result.Err?
    ensures RemoveWishSpec(s, memberId, wishId).next.wishes == s.wishes
  {
  }

  /** The service alone does not keep wishes unique: adding an existing wish a second time
      stores a duplicate. */
  lemma AddWishTwiceDuplicates(s: Tables, memberId: int, productId: int)
    requires WellFormed(s) && productId in s.products
    ensures var s2 := AddWishSpec(AddWishSpec(s, memberId, productId).next, memberId, productId).next;
            !WishesUnique(s2.wishes)
  {
    var s1 := AddWishSpec(s, memberId, productId).next;
    var s2 := AddWishSpec(s1, memberId, productId).next;
    assert s2.wishes[s.nextId] == s2.wishes[s.nextId + 1];
  }
}
