/** End-to-end behaviour of the order and wish endpoints on a small fixture, request by request:
    the member is resolved again from the tables for every request, as the LoginMember resolver
    does, and every outcome is turned into an HTTP status by the exception handler. */
module GiftScenarios {
  import opened Common
  import opened Store
  import opened LoginMemberArgumentResolver
  import OrderService
  import WishService
  import WishController
  import GlobalExceptionHandler

  /** A category (1), a product of price 1000 in it (2), an option of that product with 10 in
      stock (3) and a member (4) holding `points` points. */
  function Fixture(points: int): (s: Tables)
    ensures WellFormed(s)
  {
    Tables(map[1 := Category("c", "#fff", "i", "d")],
           map[2 := Product("p", 1000, "i", 1)],
           map[3 := Option(2, "o", 10)],
           map[4 := Member("m@x", NonNull("pw"), points, Null)],
           map[], map[], 5)
  }

  /** POST /api/orders by member `memberId`, answered 201 on success. */
  function PostOrder(s: Tables, memberId: int, optionId: int, quantity: int): Step<Entry<Order>>
    requires WellFormed(s) && memberId in s.members && quantity > 0
  {
    OrderService.CreateOrderSpec(s, AuthenticatedMember(memberId, s.members[memberId]), optionId, quantity, NonNull("gift"))
  }

  function OrderStatus(s: Tables, memberId: int, optionId: int, quantity: int): int
    requires WellFormed(s) && memberId in s.members && quantity > 0
  {
    GlobalExceptionHandler.Status(PostOrder(s, memberId, optionId, quantity).result, GlobalExceptionHandler.CREATED)
  }

  /** Ordering 7 of 10 succeeds; ordering 5 of the 3 left is a bad request and leaves the stock
      at 3. */
  lemma {:induction false} SecondOrderExceedsRemainingStock()
    ensures var s0 := Fixture(1000000);
            var s1 := PostOrder(s0, 4, 3, 7).next;
            && OrderStatus(s0, 4, 3, 7) == 201
            && s1.options[3].quantity == 3
            && OrderStatus(s1, 4, 3, 5) == 400
            && PostOrder(s1, 4, 3, 5).next.options[3].quantity == 3
  {
    var s0 := Fixture(1000000);
    assert OrderService.InStock(s0, 3, 7);
    var s1 := PostOrder(s0, 4, 3, 7).next;
    assert s1.options[3].quantity == 3;
  }

  /** Orders of 3 and 4 succeed, a further 4 fails, and the last 3 units can still be ordered. */
  lemma {:induction false} OrdersAccumulate()
    ensures var s0 := Fixture(1000000);
            var s1 := PostOrder(s0, 4, 3, 3).next;
            var s2 := PostOrder(s1, 4, 3, 4).next;
            var s3 := PostOrder(s2, 4, 3, 4).next;
            && OrderStatus(s0, 4, 3, 3) == 201
            && OrderStatus(s1, 4, 3, 4) == 201
            && OrderStatus(s2, 4, 3, 4) == 400
            && OrderStatus(s3, 4, 3, 3) == 201
            && PostOrder(s3, 4, 3, 3).next.options[3].quantity == 0
            && PostOrder(s3, 4, 3, 3).next.members[4].point == 1000000 - 10000
  {
    var s0 := Fixture(1000000);
    assert OrderService.InStock(s0, 3, 3);
    var s1 := PostOrder(s0, 4, 3, 3).next;
    assert s1.options[3].quantity == 7 && s1.members[4].point == 997000;
    assert OrderService.InStock(s1, 3, 4);
    var s2 := PostOrder(s1, 4, 3, 4).next;
    assert s2.options[3].quantity == 3 && s2.members[4].point == 993000;
    var s3 := PostOrder(s2, 4, 3, 4).next;
    assert s3 == s2;
    assert OrderService.InStock(s3, 3, 3);
  }

  /** An unknown option is not found. */
  lemma UnknownOptionIsNotFound()
    ensures OrderStatus(Fixture(1000000), 4, 99, 1) == 404
  {
  }

  /** A member who cannot pay gets a bad request, and the stock taken for the order is not
      given back. */
  lemma {:induction false} UnpaidOrderKeepsStockTaken()
    ensures OrderStatus(Fixture(100), 4, 3, 1) == 400
    ensures PostOrder(Fixture(100), 4, 3, 1).next.options[3].quantity == 9
    ensures PostOrder(Fixture(100), 4, 3, 1).next.members[4].point == 100
    ensures PostOrder(Fixture(100), 4, 3, 1).next.orders == map[]
  {
    assert OrderService.InStock(Fixture(100), 3, 1);
  }

  /** Without an Authorization header every endpoint answers 401, whatever the token store says. */
  lemma MissingHeaderIsUnauthorized(extractMember: string -> Nullable<AuthenticatedMember>)
    ensures GlobalExceptionHandler.Status(ResolveArgument(Null, extractMember), GlobalExceptionHandler.OK) == 401
  {
  }

  /** A header whose token the extractor cannot resolve ("Bearer invalid-token") answers 401 on
      the order and wish endpoints. */
  lemma InvalidTokenIsUnauthorized(extractMember: string -> Nullable<AuthenticatedMember>)
    requires extractMember("Bearer invalid-token").Null?
    ensures GlobalExceptionHandler.Status(ResolveArgument(NonNull("Bearer invalid-token"), extractMember), GlobalExceptionHandler.CREATED) == 401
    ensures GlobalExceptionHandler.Status(ResolveArgument(NonNull("Bearer invalid-token"), extractMember), GlobalExceptionHandler.OK) == 401
  {
  }

  /** Adding a wish answers 201, adding it again 200 with the same wish; another member's delete
      is forbidden and the owner's delete leaves no wish behind. */
  lemma {:induction false} WishLifecycle()
    ensures var s0 := Fixture(0);
            var owner := AuthenticatedMember(4, s0.members[4]);
            var other := AuthenticatedMember(7, Member("o@x", NonNull("pw"), 0, Null));
            var first := WishController.AddWishSpec(s0, owner, 2);
            var second := WishController.AddWishSpec(first.next, owner, 2);
            && first.result == Ok(WishController.Added(201, Entry(5, Wish(4, 2))))
            && second.result == Ok(WishController.Added(200, Entry(5, Wish(4, 2))))
            && GlobalExceptionHandler.Status(WishService.RemoveWishSpec(second.next, other.id, 5).result, 204) == 403
            && GlobalExceptionHandler.Status(WishService.RemoveWishSpec(second.next, owner.id, 5).result, 204) == 204
            && WishService.RemoveWishSpec(second.next, owner.id, 5).next.wishes == map[]
  {
    var s0 := Fixture(0);
    var owner := AuthenticatedMember(4, s0.members[4]);
    WishController.NewWishIsCreated(s0, owner, 2);
    WishController.AddWishIdempotent(s0, owner, 2);
  }
}
