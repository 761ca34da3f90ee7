/** The controller's `index()`: the payment provider's server-to-server
    notification is validated step by step, and either rejected with one
    generic response or turned into exactly one `completed` payment for the
    order it names. Entity storage, the clock and the crypto primitives are
    parameters of a `Site`. */
module Webhook {
  import opened Php
  import opened TokenCheck

  /** The plugin id the payment gateway entity is looked up by. */
  const GatewayPlugin: string := "xaigate_offsite_redirect"

  /** A configured payment gateway entity and its plugin configuration. */
  datatype Gateway = Gateway(id: string, configuration: map<string, string>)

  /** A money amount as the commerce platform stores it. */
  datatype Price = Price(number: string, currencyCode: string)

  /** An order; its balance is null when the order has no total. */
  datatype Order = Order(id: string, balance: Option<Price>)

  /** The fields of the payment entity the webhook creates. */
  datatype Payment = Payment(
    state: string,
    amount: Option<Price>,
    paymentGateway: string,
    orderId: string,
    remoteId: string)

  /** Why a notification was turned away. The controller answers all of them
      with the same response. */
  datatype Rejection = MalformedRequest | ConfigurationNotFound | InvalidSignature | OrderNotFound

  /** What `index()` decides for one notification. */
  datatype Outcome = Rejected(reason: Rejection) | Completed(payment: Payment)

  /** A JSON response holding a one-member object. */
  datatype Response = Response(code: int, body: map<string, string>)

  /** The environment the controller reads: gateway lookup by plugin (in
      storage order), order lookup by id, the crypto primitives and `time()`. */
  datatype Site = Site(
    gatewaysByPlugin: string -> seq<Gateway>,
    loadOrder: string -> Option<Order>,
    crypto: Crypto,
    now: int)

  /** The gateway `reset()` picks from the lookup result, if any. */
  function FirstGateway(site: Site): (g: Option<Gateway>)
    ensures g.None? <==> |site.gatewaysByPlugin(GatewayPlugin)| == 0
    ensures g.Some? ==> g.value == site.gatewaysByPlugin(GatewayPlugin)[0]
  {
    var gateways := site.gatewaysByPlugin(GatewayPlugin);
    if |gateways| == 0 then None else Some(gateways[0])
  }

  /** The configured `secret_key`, null when the configuration has none. */
  function SecretKey(gateway: Gateway): Option<string>
  {
    Get(gateway.configuration, "secret_key")
  }

  /** The gateway found carries a non-empty secret, so tokens are verified. */
  predicate SecretConfigured(site: Site)
  {
    FirstGateway(site).Some? && !Empty(SecretKey(FirstGateway(site).value))
  }

  /** The required fields are present, non-empty, and the status is `success`. */
  predicate FieldsValid(data: map<string, string>)
  {
    && !Empty(Get(data, "invoice_id"))
    && !Empty(Get(data, "order_id"))
    && Get(data, "status") == Some("success")
  }

  /** The token gate: with an empty secret it always passes; otherwise the
      token must be non-empty and pass `check()`. */
  predicate TokenAccepted(site: Site, gateway: Gateway, token: Option<string>)
  {
    var secret := SecretKey(gateway);
    Empty(secret) || (!Empty(token) && Check(site.crypto, token.value, secret.value, site.now))
  }

  /** The conditions under which a notification is accepted, stated all at once. */
  predicate Admissible(site: Site, data: map<string, string>)
  {
    && FieldsValid(data)
    && FirstGateway(site).Some?
    && TokenAccepted(site, FirstGateway(site).value, Get(data, "token"))
    && site.loadOrder(data["order_id"]).Some?
  }

  /** `index()` on the parsed form body, checks in the controller's order. */
  function Index(site: Site, data: map<string, string>): (o: Outcome)
    ensures |data| == 0 ==> o == Rejected(MalformedRequest)
    ensures !FieldsValid(data) ==> o == Rejected(MalformedRequest)
    ensures FieldsValid(data) && FirstGateway(site) == None ==> o == Rejected(ConfigurationNotFound)
    ensures SecretConfigured(site) && Empty(Get(data, "token")) ==> o.Rejected?
    ensures (SecretConfigured(site) && "token" in data
             && !Check(site.crypto, data["token"], SecretKey(FirstGateway(site).value).value, site.now)) ==> o.Rejected?
    ensures "order_id" in data && site.loadOrder(data["order_id"]) == None ==> o.Rejected?
    ensures o.Completed? ==>
              && "invoice_id" in data && "order_id" in data
              && site.loadOrder(data["order_id"]).Some? && FirstGateway(site).Some?
              && o.payment.state == "completed"
              && o.payment.amount == site.loadOrder(data["order_id"]).value.balance
              && o.payment.paymentGateway == FirstGateway(site).value.id
              && o.payment.orderId == site.loadOrder(data["order_id"]).value.id
              && o.payment.remoteId == data["invoice_id"]
  {
    if |data| == 0 then Rejected(MalformedRequest)
    else
      var token := Get(data, "token");
      var invoiceId := Get(data, "invoice_id");
      var orderId := Get(data, "order_id");
      var status := Get(data, "status");
      if Empty(invoiceId) || Empty(orderId) || Empty(status) || status.value != "success" then
        Rejected(MalformedRequest)
      else
        var gateways := site.gatewaysByPlugin(GatewayPlugin);
        if |gateways| == 0 then Rejected(ConfigurationNotFound)
        else
          var gateway := gateways[0];
          var secret := SecretKey(gateway);
          if !Empty(secret) && Empty(token) then Rejected(MalformedRequest)
          else if !Empty(secret) && !Check(site.crypto, token.value, secret.value, site.now) then
            Rejected(InvalidSignature)
          else
            match site.loadOrder(orderId.value)
            case None => Rejected(OrderNotFound)
            case Some(order) =>
              Completed(Payment("completed", order.balance, gateway.id, order.id, invoiceId.value))
  }

  /** The HTTP answer: 200 with the completed status, or 500 "Bad request". */
  function Respond(o: Outcome): (r: Response)
    ensures r.code == 200 <==> o.Completed?
    ensures o.Completed? ==> r.body == map["status" := "completed"]
    ensures o.Rejected? ==> r == Response(500, map["message" := "Bad request"])
  {
    match o
    case Completed(_) => Response(200, map["status" := "completed"])
    case Rejected(_) => Response(500, map["message" := "Bad request"])
  }

  /** Handling one notification against the stored payments: a completed
      outcome appends its payment, a rejection leaves the store untouched. */
  function Deliver(site: Site, payments: seq<Payment>, data: map<string, string>): (r: (seq<Payment>, Response))
    ensures Admissible(site, data) ==>
              r == (payments + [Index(site, data).payment], Response(200, map["status" := "completed"]))
    ensures !Admissible(site, data) ==> r.0 == payments && r.1 == Response(500, map["message" := "Bad request"])
    ensures r.0[..|payments|] == payments
  {
    IndexCompletesIff(site, data);
    var o := Index(site, data);
    match o
    case Completed(p) => (payments + [p], Respond(o))
    case Rejected(_) => (payments, Respond(o))
  }

  /** `index()` completes exactly on admissible notifications, with the
      payment record the controller builds. */
  lemma IndexCompletesIff(site: Site, data: map<string, string>)
    ensures Index(site, data).Completed? <==> Admissible(site, data)
    ensures Admissible(site, data) ==>
              var order := site.loadOrder(data["order_id"]).value;
              Index(site, data).payment
                == Payment("completed", order.balance, FirstGateway(site).value.id, order.id, data["invoice_id"])
  {
  }

  /** Without a configured secret the token is never inspected: any token, or
      none, gives the same outcome. */
  lemma TokenIgnoredWithoutSecret(site: Site, data: map<string, string>, token: string)
    requires FirstGateway(site).Some? && Empty(SecretKey(FirstGateway(site).value))
    ensures Index(site, data) == Index(site, data["token" := token])
    ensures Index(site, data) == Index(site, data - {"token"})
  {
  }

  /** Every rejection looks the same from outside. */
  lemma RejectionsIndistinguishable(a: Rejection, b: Rejection)
    ensures Respond(Rejected(a)) == Respond(Rejected(b))
    ensures Respond(Rejected(a)).code == 500
  {
  }

  /** Nothing is deduplicated: delivering the same admissible notification
      twice stores two identical completed payments. */
  lemma ReplayDuplicates(site: Site, payments: seq<Payment>, data: map<string, string>)
    requires Admissible(site, data)
    ensures var once := Deliver(site, payments, data).0;
            var twice := Deliver(site, once, data).0;
            && |twice| == |payments| + 2
            && twice[..|payments|] == payments
            && twice[|payments|] == twice[|payments| + 1]
            && twice[|payments|].state == "completed"
            && twice[|payments|].remoteId == data["invoice_id"]
  {
  }
}
