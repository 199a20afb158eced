/** KakaoNotificationService (gift.order): the best-effort "message to me" sent after an order.
    The Kakao HTTP client is modelled by what it is asked to send and by whether the Kakao API
    is reachable; what it does on the wire is not part of this model. */
module KakaoNotificationService {
  import opened Common
  import opened Store

  /** One `sendToMe(accessToken, order, product)` request. */
  datatype Notice = Notice(accessToken: string, order: Entry<Order>, product: Product)

  /** KakaoMessageClient: records every request handed to it; when the API is unreachable the
      request fails with an exception, which the caller sees as `delivered == false`. */
  class KakaoMessageClient {
    var requests: seq<Notice>
    var reachable: bool

    constructor(reachable: bool)
      ensures requests == [] && this.reachable == reachable
    {
      requests := [];
      this.reachable := reachable;
    }

    method SendToMe(accessToken: string, order: Entry<Order>, product: Product) returns (delivered: bool)
      modifies this
      ensures requests == old(requests) + [Notice(accessToken, order, product)]
      ensures reachable == old(reachable) && delivered == reachable
    {
      requests := requests + [Notice(accessToken, order, product)];
      delivered := reachable;
    }
  }

  /** The requests `sendOrderNotification` makes: none for a member without a Kakao access token,
      otherwise exactly one, with that token, the saved order and the option's product. */
  function Notices(member: Member, order: Entry<Order>, product: Product): (r: seq<Notice>)
    ensures |r| <= 1
    ensures r == [] <==> member.kakaoAccessToken.Null?
    ensures r != [] ==> r[0] == Notice(member.kakaoAccessToken.value, order, product)
  {
    if member.kakaoAccessToken.Null? then [] else [Notice(member.kakaoAccessToken.value, order, product)]
  }

  /** `sendOrderNotification(member, order, option)`: returns normally whether or not the client
      fails, since every exception is swallowed; it has no result, so the order cannot depend on
      it. The only effect is on the client's request log. */
  method SendOrderNotification(client: KakaoMessageClient, member: Member, order: Entry<Order>, product: Product)
    modifies client
    ensures client.requests == old(client.requests) + Notices(member, order, product)
    ensures client.reachable == old(client.reachable)
  {
    if member.kakaoAccessToken.Null? {
      return;
    }
    // a failed delivery is ignored
    var delivered := client.SendToMe(member.kakaoAccessToken.value, order, product);
  }
}
