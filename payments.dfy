/** paymentsController.js: building the MercadoPago checkout preference for a
    pending order, and the webhook that marks an order paid. The MercadoPago
    client is a parameter: a function from the request it is sent to the
    outcome it reports. */
module Payments {
  import opened Tables
  import opened Text
  import opened Orders

  /** One element of the preference's `items`. */
  datatype ProviderItem = ProviderItem(id: string, title: string, quantity: int, unitPrice: int, currencyId: string)

  /** The `body` sent to `preference.create`. */
  datatype Preference = Preference(items: seq<ProviderItem>, payerEmail: string,
                                   success: string, failure: string, pending: string,
                                   autoReturn: string, notificationUrl: string)

  const ApiBase: string := "https://4h2dk6-4000.csb.app/api/payments/"

  /** The preference item for one `order_items` row. */
  function ProviderItemOf(item: OrderItem): ProviderItem {
    ProviderItem(IntToString(item.bookId), "Libro " + IntToString(item.bookId), item.quantity, item.price, "ARS")
  }

  /** `items.map(...)`: one preference item per row, in order, priced in ARS. */
  function MapItems(items: seq<OrderItem>): (r: seq<ProviderItem>)
    ensures |r| == |items|
    ensures forall i :: 0 <= i < |items| ==> r[i] == ProviderItemOf(items[i])
  {
    if items == [] then [] else [ProviderItemOf(items[0])] + MapItems(items[1..])
  }

  /** The preference item ids identify the books: two items share an id only
      when their rows name the same book. */
  lemma MappedIdsIdentifyBooks(items: seq<OrderItem>, i: int, j: int)
    requires 0 <= i < |items| && 0 <= j < |items|
    ensures MapItems(items)[i].id == MapItems(items)[j].id <==> items[i].bookId == items[j].bookId
  {
    if MapItems(items)[i].id == MapItems(items)[j].id {
      IntToStringInjective(items[i].bookId, items[j].bookId);
    }
  }

  /** The preference for an order: its items, the payer, the three return
      links and the webhook address, each carrying the order id. */
  function PreferenceOf(orderId: int, items: seq<OrderItem>, payerEmail: string): Preference {
    var id := IntToString(orderId);
    Preference(MapItems(items), payerEmail,
               ApiBase + "success?order_id=" + id,
               ApiBase + "failure?order_id=" + id,
               ApiBase + "pending?order_id=" + id,
               "approved",
               ApiBase + id + "/webhook")
  }

  /** The webhook address names the order it was built for. */
  lemma NotificationUrlNamesOrder(a: int, b: int, items: seq<OrderItem>, itemsB: seq<OrderItem>, email: string)
    requires PreferenceOf(a, items, email).notificationUrl == PreferenceOf(b, itemsB, email).notificationUrl
    ensures a == b
  {
    var u := PreferenceOf(a, items, email).notificationUrl;
    var sa := IntToString(a);
    var sb := IntToString(b);
    assert u == ApiBase + sa + "/webhook" == ApiBase + sb + "/webhook";
    assert |sa| == |sb|;
    assert sa == u[|ApiBase|..|ApiBase| + |sa|];
    assert sb == u[|ApiBase|..|ApiBase| + |sb|];
    IntToStringInjective(a, b);
  }

  /** The messages `createPayment` answers its refusals with. */
  const MissingOrderId: string := "El ID de la orden es obligatorio."
  const OrderNotFound: string := "Pedido no encontrado"
  const AlreadyProcessed: string := "El pedido ya fue procesado"
  const NoItems: string := "La orden no tiene ítems asociados."

  /** `createPayment`. Lookups are answered from the tables; `provider` is the
      outcome of `preference.create` for the preference it is given: the
      checkout link, or none when the call throws. */
  method CreatePayment(db: Store, orderId: Option<int>, payerEmail: string,
                       provider: Preference -> Option<string>) returns (r: Reply<string>)
    ensures r == if !Truthy(orderId) then Err(400, MissingOrderId)
                 else if !(1 <= orderId.value <= |db.orders|) then Err(404, OrderNotFound)
                 else if db.orders[orderId.value - 1].status != Pending then Err(400, AlreadyProcessed)
                 else
                   var items := ItemsOfOrder(db.orderItems, orderId.value);
                   var outcome := provider(PreferenceOf(orderId.value, items, payerEmail));
                   if items == [] then Err(400, NoItems)
                   else if outcome.None? then ServerFailure()
                   else Ok(outcome.value)
  {
    if !Truthy(orderId) {
      return Err(400, MissingOrderId);
    }
    var id := orderId.value;
    if !(1 <= id <= |db.orders|) {
      return Err(404, OrderNotFound);
    }
    if db.orders[id - 1].status != Pending {
      return Err(400, AlreadyProcessed);
    }
    var items := ItemsOfOrder(db.orderItems, id);
    if |items| == 0 {
      return Err(400, NoItems);
    }
    var outcome := provider(PreferenceOf(id, items, payerEmail));
    if outcome.None? {
      return ServerFailure();
    }
    r := Ok(outcome.value);
  }

  /** An order that `createOrder` has just placed is billed for exactly its
      lines: one preference item per line, with the line's book, quantity and
      price. */
  lemma NewOrderIsBilledForItsLines(rows: seq<OrderItem>, orderId: int, lines: seq<Line>)
    requires forall i :: 0 <= i < |rows| ==> rows[i].orderId < orderId
    ensures var billed := MapItems(ItemsOfOrder(rows + ItemRows(orderId, lines), orderId));
      && |billed| == |lines|
      && forall i :: 0 <= i < |lines| ==>
           billed[i] == ProviderItem(IntToString(lines[i].bookId), "Libro " + IntToString(lines[i].bookId),
                                     lines[i].quantity, lines[i].price, "ARS")
  {
    NewOrderReadsBack(rows, orderId, lines);
  }

  /** What the webhook sends back: nothing at all, 200, or the error
      handler's 500. */
  datatype WebhookReply = NoReply | Acknowledged | Failed

  /** `paymentWebhook`. `lookup` is the outcome of `payment.get`: the payment's
      status, or none when the call throws. An approved payment marks the
      order paid whatever its status. */
  method PaymentWebhook(db: Store, orderId: int, queryType: Option<string>, lookup: Option<string>)
    returns (r: WebhookReply)
    requires db.Valid()
    modifies db`orders
    ensures db.Valid()
    ensures queryType != Some("payment") ==> r == NoReply && db.orders == old(db.orders)
    ensures queryType == Some("payment") && lookup.None? ==> r == Failed && db.orders == old(db.orders)
    ensures queryType == Some("payment") && lookup.Some? ==>
      && r == Acknowledged
      && db.orders == (if lookup.value == "approved" then WithStatus(old(db.orders), orderId, Paid) else old(db.orders))
  {
    if queryType != Some("payment") {
      return NoReply;
    }
    if lookup.None? {
      return Failed;
    }
    if lookup.value == "approved" {
      db.orders := WithStatus(db.orders, orderId, Paid);
    }
    r := Acknowledged;
  }

  /** The webhook does not check that the order is still pending: an approved
      payment turns a canceled order into a paid one. */
  lemma ApprovedPaymentRevivesCanceledOrder(orders: seq<Order>, orderId: int)
    requires 1 <= orderId <= |orders| && orders[orderId - 1].status == Canceled
    ensures WithStatus(orders, orderId, Paid)[orderId - 1].status == Paid
  {
  }
}
