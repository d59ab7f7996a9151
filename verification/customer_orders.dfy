/**
  The storefront's order controller: the checkout page, placing an order from
  the cart, and cancelling an order. The order service's implementation is not
  part of this model; its calls are recorded, with the HTTP session attributes
  the handler touches.
 */
module CustomerOrders {

  import opened Web
  import opened CustomerStore

  /** The `OrderService` calls a handler can issue. A missing cart or order
      id is passed on as `null`. */
  datatype OrderCall = SaveOrder(cart: Option<Cart>) | CancelOrder(id: Option<int>)

  type Session = map<string, Attr>

  datatype OrderOutcome = OrderOutcome(response: Response, calls: seq<OrderCall>, session: Session)

  const UpdateInformationMessage: string := "You need update your information before check out"
  const OrderAddedMessage: string := "Add order successfully"
  const OrderCancelledMessage: string := "Cancel order successfully!"
  const TotalItemsKey: string := "totalItems"

  /** The profile fields the checkout page needs are all present. */
  predicate CheckoutReady(profile: CustomerDto) {
    profile.address.Some? && profile.city.Some? && profile.phoneNumber.Some?
  }

  /** `GET /check-out`. A registered customer without a cart makes the handler
      dereference `null`, which is a server error. */
  function CheckOut(store: Store, principal: Option<string>): (r: Response)
    ensures principal.None? ==> r == ToLogin()
    ensures principal.Some? && principal.value !in store ==> r == ServerError
    ensures r.Page? && r.view == "checkout" <==>
      principal.Some? && principal.value in store
      && CheckoutReady(store[principal.value].profile) && store[principal.value].cart.Some?
    ensures r.Page? && r.view == "checkout" ==>
      "grandTotal" in r.model && r.model["grandTotal"] == Count(store[principal.value].cart.value.totalItems)
    ensures principal.Some? && principal.value in store && !CheckoutReady(store[principal.value].profile) ==>
      && r.Page? && r.view == "customer-information"
      && "information" in r.model && r.model["information"] == Text(UpdateInformationMessage)
  {
    match principal
    case None => ToLogin()
    case Some(name) =>
      match GetCustomer(store, name)
      case None => ServerError
      case Some(record) =>
        var customer := record.profile;
        if customer.address.None? || customer.city.None? || customer.phoneNumber.None? then
          Page("customer-information",
               map["information" := Text(UpdateInformationMessage), "title" := Text("Profile"), "page" := Text("Profile")],
               map[])
        else
          match record.cart
          case None => ServerError
          case Some(cart) =>
            Page("checkout",
                 map["title" := Text("Check-Out"), "page" := Text("Check-Out"), "grandTotal" := Count(cart.totalItems)],
                 map[])
  }

  /** `POST /add-order`. */
  function CreateOrder(store: Store, principal: Option<string>, session: Session): (o: OrderOutcome)
    ensures principal.None? ==> o == OrderOutcome(ToLogin(), [], session)
    ensures principal.Some? && principal.value !in store ==> o == OrderOutcome(ServerError, [], session)
    ensures principal.Some? && principal.value in store ==>
      && o.calls == [SaveOrder(store[principal.value].cart)]
      && o.session.Keys == session.Keys - {TotalItemsKey}
      && (forall k :: k in o.session ==> o.session[k] == session[k])
      && o.response.Page? && o.response.view == "order-detail"
      && "success" in o.response.model && o.response.model["success"] == Text(OrderAddedMessage)
  {
    match principal
    case None => OrderOutcome(ToLogin(), [], session)
    case Some(name) =>
      match GetCustomer(store, name)
      case None => OrderOutcome(ServerError, [], session)
      case Some(record) =>
        OrderOutcome(Page("order-detail",
                     map["title" := Text("Order Detail"), "page" := Text("Order Detail"),
                         "success" := Text(OrderAddedMessage)],
                     map[]),
                [SaveOrder(record.cart)],
                session - {TotalItemsKey})
  }

  /** Placing an order is not gated on the profile: a customer whom the
      checkout page sends back to complete the profile can still place an
      order from the cart. */
  lemma CreateOrderNotGated(store: Store, name: string, session: Session)
    requires name in store && !CheckoutReady(store[name].profile)
    ensures CheckOut(store, Some(name)).view == "customer-information"
    ensures CreateOrder(store, Some(name), session).calls == [SaveOrder(store[name].cart)]
  {
  }

  /** A handler that touches no session attribute. */
  datatype Forwarded = Forwarded(response: Response, calls: seq<OrderCall>)

  /** `/cancel-order`: no principal is consulted. */
  function CancelOrderRequest(id: Option<int>): (o: Forwarded)
    ensures o.calls == [CancelOrder(id)]
    ensures o.response == Page("redirect:/orders", map[], map["success" := Text(OrderCancelledMessage)])
  {
    Forwarded(Page("redirect:/orders", map[], map["success" := Text(OrderCancelledMessage)]), [CancelOrder(id)])
  }

  /** Without a logged-in customer no order is placed, but a cancellation is
      still forwarded to the order service and reported as successful. */
  lemma CancelNeedsNoLogin(store: Store, id: Option<int>, session: Session)
    ensures CreateOrder(store, None, session).calls == []
    ensures CancelOrderRequest(id).calls != []
    ensures CancelOrderRequest(id).response.Page?
    ensures CancelOrderRequest(id).response.flash == map["success" := Text(OrderCancelledMessage)]
  {
  }
}
