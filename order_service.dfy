/** OrderService (gift.order): placing an order takes stock, then points, then saves the order
    and sends a best-effort Kakao notification. The steps are separate saves with nothing undoing
    an earlier one when a later one fails. */
module OrderService {
  import opened Common
  import opened Store
  import opened LoginMemberArgumentResolver
  import OptionService
  import MemberService
  import KakaoNotificationService

  /** `findByMemberId(memberId, pageable)`: that member's orders (paging is not modelled). */
  function FindByMemberId(s: Tables, memberId: int): (r: map<int, Order>)
    ensures forall id :: id in r <==> id in s.orders && s.orders[id].memberId == memberId
    ensures forall id :: id in r ==> r[id] == s.orders[id]
  {
    Restrict(s.orders, set id | id in s.orders && s.orders[id].memberId == memberId)
  }

  predicate StockNonNegative(options: map<int, Option>)
  {
    forall id :: id in options ==> options[id].quantity >= 0
  }

  predicate PointsNonNegative(members: map<int, Member>)
  {
    forall id :: id in members ==> members[id].point >= 0
  }

  /** The price of an order as written: `getPrice() * quantity` multiplies two Java ints, so the
      product wraps around modulo 2^32. */
  function AmountAsWritten(price: int, quantity: int): (r: int)
    ensures InInt(r)
    ensures (price * quantity - r) % 0x1_0000_0000 == 0
    ensures InInt(price * quantity) ==> r == price * quantity
  {
    WrapInt(price * quantity)
  }

  /** The price of an order as intended: unit price times quantity, never less than one unit's
      price, and equal to the code's value whenever that does not overflow. */
  function Amount(price: int, quantity: int): (r: int)
    requires quantity > 0
    ensures price >= 0 ==> r >= price
    ensures InInt(price * quantity) ==> r == AmountAsWritten(price, quantity)
  {
    assert price >= 0 ==> price * quantity >= price * 1;
    price * quantity
  }

  /** With a price of 65536 and a quantity of 65537 the code's product wraps to 65536, so a member
      holding 65536 points pays for 65537 units with what one unit costs. */
  lemma OverflowUndercharges()
    ensures AmountAsWritten(65536, 65537) == 65536
    ensures Amount(65536, 65537) == 4295032832
    ensures MemberService.DeductMember(Member("m@x", Null, 65536, Null), AmountAsWritten(65536, 65537)).Ok?
    ensures MemberService.DeductMember(Member("m@x", Null, 65536, Null), Amount(65536, 65537)).Err?
  {
    assert 65536 * 65537 == 4295032832;
  }

  /** The tables after the stock of `optionId` dropped by `quantity`. */
  function TakeStock(s: Tables, optionId: int, quantity: int): Tables
    requires optionId in s.options
  {
    s.(options := s.options[optionId := s.options[optionId].(quantity := s.options[optionId].quantity - quantity)])
  }

  /** The stock is there and the ordered option's product exists. */
  predicate InStock(s: Tables, optionId: int, quantity: int)
  {
    optionId in s.options && quantity <= s.options[optionId].quantity && s.options[optionId].productId in s.products
  }

  function OrderAmount(s: Tables, optionId: int, quantity: int): int
    requires quantity > 0 && InStock(s, optionId, quantity)
  {
    Amount(s.products[s.options[optionId].productId].price, quantity)
  }

  /** `createOrder(member, optionId, quantity, message)`. An unknown option (NotFound) or short
      stock (IllegalArgument) fails with nothing saved. Once the stock is taken it stays taken:
      when the member cannot pay, the error comes back with the stock already reduced and no
      points or order saved. Otherwise the stock drops by `quantity`, the member's points by the
      order's amount, and exactly one order is saved. */
  function CreateOrderSpec(s: Tables, member: AuthenticatedMember, optionId: int, quantity: int, message: Nullable<string>)
    : (st: Step<Entry<Order>>)
    requires WellFormed(s) && quantity > 0 && member.id in s.members
    ensures WellFormed(st.next)
    ensures optionId !in s.options ==>
              st.result == Err(NotFound(Text(IdText("Option not found. id=", optionId)))) && st.next == s
    ensures optionId in s.options && quantity > s.options[optionId].quantity ==>
              st.result == Err(IllegalArgument(Unseen("Option.subtractQuantity"))) && st.next == s
    ensures st.result.Ok? <==>
              InStock(s, optionId, quantity) && 0 < OrderAmount(s, optionId, quantity) <= member.member.point
    ensures InStock(s, optionId, quantity) && !(0 < OrderAmount(s, optionId, quantity) <= member.member.point) ==>
              && st.result == Err(IllegalArgument(Unseen("Member.deductPoint")))
              && st.next == TakeStock(s, optionId, quantity)
    ensures st.result.Err? ==> st.next.members == s.members && st.next.orders == s.orders && st.next.nextId == s.nextId
    ensures st.result.Ok? ==>
              var amount := OrderAmount(s, optionId, quantity);
              var order := Order(optionId, member.id, quantity, message);
              && st.result.value == Entry(s.nextId, order)
              && st.next == TakeStock(s, optionId, quantity).(
                              members := s.members[member.id := member.member.(point := member.member.point - amount)],
                              orders := s.orders[s.nextId := order],
                              nextId := s.nextId + 1)
  {
    var subtracted := OptionService.SubtractQuantitySpec(s, optionId, quantity);
    match subtracted.result
    case Err(e) => Step(Err(e), s)
    case Ok(option) =>
      assert subtracted.next == TakeStock(s, optionId, quantity);
      if option.productId !in s.products then Step(Err(Internal(Unseen("Option.getProduct"))), subtracted.next)
      else
        var amount := Amount(s.products[option.productId].price, quantity);
        match MemberService.DeductMember(member.member, amount)
        case Err(e) => Step(Err(e), subtracted.next)
        case Ok(charged) =>
          var id := subtracted.next.nextId;
          var order := Order(optionId, member.id, quantity, message);
          Step(Ok(Entry(id, order)),
               subtracted.next.(members := s.members[member.id := charged], orders := s.orders[id := order], nextId := id + 1))
  }

  /** Placing an order, successful or not, never drives a stock or a point balance below zero. */
  lemma CreateOrderKeepsBalances(s: Tables, member: AuthenticatedMember, optionId: int, quantity: int, message: Nullable<string>)
    requires WellFormed(s) && quantity > 0 && member.id in s.members
    requires StockNonNegative(s.options) && PointsNonNegative(s.members)
    ensures var next := CreateOrderSpec(s, member, optionId, quantity, message).next;
            StockNonNegative(next.options) && PointsNonNegative(next.members)
  {
  }

  /** The Kakao request a placement makes: one, after a successful order, for a member with a
      Kakao access token; none otherwise. */
  function OrderNotices(s: Tables, member: AuthenticatedMember, optionId: int, quantity: int, message: Nullable<string>)
    : (r: seq<KakaoNotificationService.Notice>)
    requires WellFormed(s) && quantity > 0 && member.id in s.members
    ensures |r| <= 1
    ensures r != [] <==>
              CreateOrderSpec(s, member, optionId, quantity, message).result.Ok? && member.member.kakaoAccessToken.NonNull?
    ensures r != [] ==>
              && r[0].accessToken == member.member.kakaoAccessToken.value
              && r[0].order == CreateOrderSpec(s, member, optionId, quantity, message).result.value
              && r[0].product == s.products[s.options[optionId].productId]
  {
    var st := CreateOrderSpec(s, member, optionId, quantity, message);
    if st.result.Err? then []
    else KakaoNotificationService.Notices(st.next.members[member.id], st.result.value, s.products[s.options[optionId].productId])
  }

  /** The placement itself. Its result and the tables depend only on the tables and the request:
      whether the Kakao API is reachable changes nothing but the client's request log. */
  method CreateOrder(db: Database, client: KakaoNotificationService.KakaoMessageClient, member: AuthenticatedMember,
                     optionId: int, quantity: int, message: Nullable<string>)
    returns (r: Result<Entry<Order>>)
    requires db.Valid() && quantity > 0 && member.id in db.members
    modifies db, client
    ensures db.Valid()
    ensures Step(r, db.Snapshot()) == CreateOrderSpec(old(db.Snapshot()), member, optionId, quantity, message)
    ensures client.requests == old(client.requests) + OrderNotices(old(db.Snapshot()), member, optionId, quantity, message)
    ensures client.reachable == old(client.reachable)
  {
    var subtracted := OptionService.SubtractQuantity(db, optionId, quantity);
    if subtracted.Err? {
      return Err(subtracted.error);
    }
    var option := subtracted.value;
    if option.productId !in db.products {
      return Err(Internal(Unseen("Option.getProduct")));
    }
    var product := db.products[option.productId];
    var charged := MemberService.DeductMember(member.member, Amount(product.price, quantity));
    if charged.Err? {
      return Err(charged.error);
    }
    db.members := db.members[member.id := charged.value];
    var id := db.GenerateId();
    var order := Order(optionId, member.id, quantity, message);
    db.orders := db.orders[id := order];
    r := Ok(Entry(id, order));
    KakaoNotificationService.SendOrderNotification(client, charged.value, Entry(id, order), product);
  }
}
