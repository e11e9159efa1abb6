/** The cart and checkout views of gallery/main/views.py over the store:
    add_to_cart, cart_view, remove_from_cart, checkout (unrouted) and
    checkout_view, plus the is_admin test. Messages and redirects become
    outcome values; the logged-in user is the `requester` parameter. */
module Views {
  import opened Base
  import opened Models
  import opened Db

  /** `MIN_ORDER_AMOUNT` of checkout_view. */
  const MinOrderAmount: Money := 15000.0

  /** `is_admin`; None stands for an anonymous visitor. */
  predicate IsAdmin(u: Option<User>)
    ensures IsAdmin(u) <==> u.Some? && (u.value.isStaff || u.value.isSuperuser)
  {
    u.Some? && (u.value.isStaff || u.value.isSuperuser)
  }

  /** Staff status, not the `role` field, decides admin access: a user whose
      role is Admin but who is neither staff nor superuser is refused, and
      an authenticated staff member is admitted whatever the role. */
  lemma AdminAccessIgnoresRole(u: User)
    ensures IsAdmin(Some(u)) <==> u.isStaff || u.isSuperuser
    ensures u.role == Admin && !u.isStaff && !u.isSuperuser ==> !IsAdmin(Some(u))
    ensures !IsAdmin(None)
  {
  }

  // ---------------------------------------------------------------------
  // add_to_cart
  // ---------------------------------------------------------------------

  datatype CartRefusal = ArtworkUnavailable | OwnArtwork | AlreadyInCart

  /** The three guards of add_to_cart, in the source's order. */
  function AddToCartCheck(artworks: map<ArtworkId, Artwork>, orders: map<OrderId, Order>,
                          requester: UserId, artworkId: ArtworkId): Option<CartRefusal>
  {
    if artworkId !in artworks || artworks[artworkId].status != Active then Some(ArtworkUnavailable)
    else if artworks[artworkId].seller == requester then Some(OwnArtwork)
    else if InCart(orders, artworkId) then Some(AlreadyInCart)
    else None
  }

  /** The row `Order.objects.create` inserts: the given snapshot price,
      status Created, default shipping and insurance, saved. */
  function CartLine(buyer: UserId, artworkId: ArtworkId, price: Money, now: Timestamp): (o: Order)
    ensures o.buyer == buyer && o.artwork == artworkId && o.status == Created && o.createdAt == now
    ensures o.price == price && o.totalPrice == price && TotalConsistent(o)
  {
    SaveOrder(Order(buyer, artworkId, price, Created, now, 0.0, false, 0.0, 0.0))
  }

  /** After a successful add the artwork is in a cart, the one-cart-line rule
      still holds, and no further add for that artwork can succeed. */
  lemma AddToCartKeepsOneCartLine(artworks: map<ArtworkId, Artwork>, orders: map<OrderId, Order>,
                                  requester: UserId, artworkId: ArtworkId, id: OrderId, price: Money, now: Timestamp)
    requires UniqueCartLines(orders) && id !in orders
    requires AddToCartCheck(artworks, orders, requester, artworkId) == None
    ensures var after := orders[id := CartLine(requester, artworkId, price, now)];
      && UniqueCartLines(after)
      && InCart(after, artworkId)
      && forall other: UserId :: AddToCartCheck(artworks, after, other, artworkId).Some?
  {
    var after := orders[id := CartLine(requester, artworkId, price, now)];
    assert after[id].artwork == artworkId && after[id].status == Created;
    forall o1, o2
      ensures DistinctCartLines(after, o1, o2)
    {
      if o1 == id && o2 in orders {
        assert orders[o2].status == Created ==> orders[o2].artwork != artworkId;
      } else if o2 == id && o1 in orders {
        assert orders[o1].status == Created ==> orders[o1].artwork != artworkId;
      } else {
        assert DistinctCartLines(orders, o1, o2);
      }
    }
  }

  /** For an active artwork offered to someone other than its seller, the
      "already in a cart" refusal is exactly the case `Artwork.clean` rejects. */
  lemma AlreadyInCartMatchesClean(artworks: map<ArtworkId, Artwork>, orders: map<OrderId, Order>,
                                  requester: UserId, artworkId: ArtworkId)
    requires artworkId in artworks && artworks[artworkId].status == Active
    requires artworks[artworkId].seller != requester
    ensures AddToCartCheck(artworks, orders, requester, artworkId) == Some(AlreadyInCart)
        <==> CleanArtwork(Some(artworkId), Active, orders) == Some(ArtworkInCart)
  {
  }

  /** `add_to_cart`: refuses a missing or non-active artwork, the seller's own
      artwork and an artwork already in a cart, changing nothing; otherwise
      inserts one Created order priced at the current discounted price. */
  method AddToCart(db: Store, requester: UserId, artworkId: ArtworkId, now: Timestamp)
    returns (r: Result<OrderId, CartRefusal>)
    requires db.Valid()
    modifies db
    ensures db.Valid()
    ensures r.Failure? ==>
      && AddToCartCheck(old(db.artworks), old(db.orders), requester, artworkId) == Some(r.error)
      && unchanged(db)
    ensures r.Success? ==>
      && AddToCartCheck(old(db.artworks), old(db.orders), requester, artworkId) == None
      && r.value !in old(db.orders)
      && db.orders == old(db.orders)[r.value := CartLine(requester, artworkId, DiscountedPrice(old(db.artworks)[artworkId], now), now)]
      && db.artworks == old(db.artworks) && db.users == old(db.users)
      && db.payments == old(db.payments) && db.verifications == old(db.verifications)
  {
    var refusal := AddToCartCheck(db.artworks, db.orders, requester, artworkId);
    if refusal.Some? {
      return Failure(refusal.value);
    }
    var price := DiscountedPrice(db.artworks[artworkId], now);
    var id := db.nextOrderId;
    AddToCartKeepsOneCartLine(db.artworks, db.orders, requester, artworkId, id, price, now);
    db.orders := db.orders[id := CartLine(requester, artworkId, price, now)];
    db.nextOrderId := db.nextOrderId + 1;
    r := Success(id);
  }

  // ---------------------------------------------------------------------
  // cart_view
  // ---------------------------------------------------------------------

  /** The requester's cart: their orders in status Created. */
  function Cart(orders: map<OrderId, Order>, buyer: UserId): (c: set<OrderId>)
    ensures c <= orders.Keys
    ensures forall o | o in orders :: o in c <==> orders[o].buyer == buyer && orders[o].status == Created
  {
    set o | o in orders && orders[o].buyer == buyer && orders[o].status == Created
  }

  ghost function Pick(ids: set<OrderId>): (o: OrderId)
    requires ids != {}
    ensures o in ids
  {
    var o :| o in ids; o
  }

  /** The sum of `price` over a set of orders. */
  ghost function PriceSum(orders: map<OrderId, Order>, ids: set<OrderId>): Money
    requires ids <= orders.Keys
    decreases ids
  {
    if ids == {} then 0.0
    else
      var o := Pick(ids);
      orders[o].price + PriceSum(orders, ids - {o})
  }

  /** The sum does not depend on the order in which lines are added up. */
  lemma {:induction false} PriceSumRemove(orders: map<OrderId, Order>, ids: set<OrderId>, o: OrderId)
    requires ids <= orders.Keys && o in ids
    ensures PriceSum(orders, ids) == orders[o].price + PriceSum(orders, ids - {o})
    decreases ids
  {
    var p := Pick(ids);
    if p != o {
      PriceSumRemove(orders, ids - {p}, o);
      PriceSumRemove(orders, ids - {o}, p);
      assert ids - {p} - {o} == ids - {o} - {p};
    }
  }

  /** `sum(item.price for item in cart_items)`. */
  method SumPrices(orders: map<OrderId, Order>, ids: set<OrderId>) returns (total: Money)
    requires ids <= orders.Keys
    ensures total == PriceSum(orders, ids)
  {
    var rest := ids;
    total := 0.0;
    while rest != {}
      invariant rest <= ids
      invariant total + PriceSum(orders, rest) == PriceSum(orders, ids)
      decreases |rest|
    {
      var o :| o in rest;
      PriceSumRemove(orders, rest, o);
      total := total + orders[o].price;
      rest := rest - {o};
    }
  }

  /** `cart_view`: the requester's cart lines and the sum of their prices. */
  method CartView(db: Store, requester: UserId) returns (items: set<OrderId>, total: Money)
    ensures items == Cart(db.orders, requester)
    ensures forall o | o in items :: o in db.orders && db.orders[o].buyer == requester && db.orders[o].status == Created
    ensures total == PriceSum(db.orders, items)
  {
    items := Cart(db.orders, requester);
    total := SumPrices(db.orders, items);
  }

  // ---------------------------------------------------------------------
  // remove_from_cart
  // ---------------------------------------------------------------------

  /** `remove_from_cart`: the lookup is by id and buyer only, so the order is
      deleted (with its payment, by cascade) exactly when it belongs to the
      requester, whatever its status; otherwise nothing changes (a 404). */
  method RemoveFromCart(db: Store, requester: UserId, orderId: OrderId) returns (removed: bool)
    requires db.Valid()
    modifies db
    ensures db.Valid()
    ensures removed <==> orderId in old(db.orders) && old(db.orders)[orderId].buyer == requester
    ensures removed ==>
      && db.orders == old(db.orders) - {orderId}
      && db.payments == WithoutPaymentsOf(old(db.payments), {orderId})
      && db.artworks == old(db.artworks) && db.users == old(db.users)
      && db.verifications == old(db.verifications)
    ensures !removed ==> unchanged(db)
  {
    if orderId in db.orders && db.orders[orderId].buyer == requester {
      var _ := db.DeleteOrder(orderId);
      removed := true;
    } else {
      removed := false;
    }
  }

  // ---------------------------------------------------------------------
  // checkout and checkout_view
  // ---------------------------------------------------------------------

  /** `item.artwork.status == 'active'`. */
  predicate ArtworkAvailable(artworks: map<ArtworkId, Artwork>, orders: map<OrderId, Order>, o: OrderId)
    requires o in orders
  {
    orders[o].artwork in artworks && artworks[orders[o].artwork].status == Active
  }

  /** The lines of `ids` whose artwork is no longer active. */
  function Unavailable(artworks: map<ArtworkId, Artwork>, orders: map<OrderId, Order>, ids: set<OrderId>): (u: set<OrderId>)
    ensures u <= ids
  {
    set o | o in ids && o in orders && !ArtworkAvailable(artworks, orders, o)
  }

  datatype CheckoutRedirect = ToCart | ToCheckoutView

  /** The unrouted `checkout`: sends the requester back to the cart as soon as
      one cart line's artwork is unavailable, and to checkout otherwise. */
  method Checkout(db: Store, requester: UserId) returns (r: CheckoutRedirect)
    ensures r == ToCart <==> Unavailable(db.artworks, db.orders, Cart(db.orders, requester)) != {}
  {
    var cart := Cart(db.orders, requester);
    var rest := cart;
    while rest != {}
      invariant rest <= cart
      invariant Unavailable(db.artworks, db.orders, cart - rest) == {}
      decreases |rest|
    {
      var o :| o in rest;
      if !ArtworkAvailable(db.artworks, db.orders, o) {
        assert o in Unavailable(db.artworks, db.orders, cart);
        return ToCart;
      }
      assert cart - (rest - {o}) == (cart - rest) + {o};
      rest := rest - {o};
    }
    return ToCheckoutView;
  }

  /** The orders after every order of `ids` is marked paid. */
  function PayAll(orders: map<OrderId, Order>, ids: set<OrderId>): (r: map<OrderId, Order>)
    ensures r.Keys == orders.Keys
  {
    map o | o in orders :: if o in ids then orders[o].(status := Paid) else orders[o]
  }

  /** The artworks of a set of orders. */
  function ArtworksOf(orders: map<OrderId, Order>, ids: set<OrderId>): set<ArtworkId>
  {
    set o | o in ids && o in orders :: orders[o].artwork
  }

  /** The artworks after every artwork of `sold` is marked sold. */
  function SellAll(artworks: map<ArtworkId, Artwork>, sold: set<ArtworkId>): (r: map<ArtworkId, Artwork>)
    ensures r.Keys == artworks.Keys
  {
    map a | a in artworks :: if a in sold then artworks[a].(status := Sold) else artworks[a]
  }

  lemma PayAllStep(orders: map<OrderId, Order>, done: set<OrderId>, o: OrderId)
    requires o in orders && o !in done
    ensures var paid := PayAll(orders, done);
      PayAll(orders, done + {o}) == paid[o := paid[o].(status := Paid)]
  {
  }

  lemma SellAllStep(artworks: map<ArtworkId, Artwork>, orders: map<OrderId, Order>, done: set<OrderId>, o: OrderId)
    requires o in orders && orders[o].artwork in artworks
    ensures ArtworksOf(orders, done + {o}) == ArtworksOf(orders, done) + {orders[o].artwork}
    ensures var a := orders[o].artwork;
      var sold := SellAll(artworks, ArtworksOf(orders, done));
      SellAll(artworks, ArtworksOf(orders, done + {o})) == sold[a := sold[a].(status := Sold)]
  {
    var a := orders[o].artwork;
    assert a in ArtworksOf(orders, done + {o});
  }

  datatype CheckoutOutcome =
    | UnavailableRemoved(lines: set<OrderId>)
    | EmptyCart
    | BelowMinimum(total: Money)
    | ConfirmPage(total: Money)
    | Placed(total: Money)

  /** The first pass of `checkout_view`: the cart lines whose artwork is no
      longer active. */
  method CollectUnavailable(db: Store, cart: set<OrderId>) returns (unavailable: set<OrderId>)
    requires cart <= db.orders.Keys
    ensures unavailable == Unavailable(db.artworks, db.orders, cart)
  {
    unavailable := {};
    var rest := cart;
    while rest != {}
      invariant rest <= cart
      invariant unavailable == Unavailable(db.artworks, db.orders, cart - rest)
      decreases |rest|
    {
      var o :| o in rest;
      assert cart - (rest - {o}) == (cart - rest) + {o};
      if !ArtworkAvailable(db.artworks, db.orders, o) {
        unavailable := unavailable + {o};
      }
      rest := rest - {o};
    }
    assert cart - rest == cart;
  }

  lemma RemoveStep(orders: map<OrderId, Order>, done: set<OrderId>, o: OrderId)
    ensures orders - done - {o} == orders - (done + {o})
  {
  }

  /** `item.delete()` for each line: the orders go, with their payments. */
  method DeleteLines(db: Store, lines: set<OrderId>)
    requires db.Valid() && lines <= db.orders.Keys
    modifies db
    ensures db.Valid()
    ensures db.orders == old(db.orders) - lines
    ensures db.payments == WithoutPaymentsOf(old(db.payments), lines)
    ensures db.artworks == old(db.artworks) && db.users == old(db.users)
    ensures db.verifications == old(db.verifications)
  {
    var pending := lines;
    while pending != {}
      invariant pending <= lines
      invariant db.Valid()
      invariant db.orders == old(db.orders) - (lines - pending)
      invariant db.payments == WithoutPaymentsOf(old(db.payments), lines - pending)
      invariant db.artworks == old(db.artworks) && db.users == old(db.users)
      invariant db.verifications == old(db.verifications)
      decreases |pending|
    {
      var o :| o in pending;
      ghost var done := lines - pending;
      var _ := db.DeleteOrder(o);
      WithoutPaymentsOfStep(old(db.payments), done, o);
      RemoveStep(old(db.orders), done, o);
      pending := pending - {o};
      assert lines - pending == done + {o};
    }
    assert lines - pending == lines;
  }

  /** `item.complete_order()` for each line: every order paid, its artwork sold. */
  method CompleteLines(db: Store, lines: set<OrderId>)
    requires db.Valid() && lines <= db.orders.Keys
    modifies db
    ensures db.Valid()
    ensures db.orders == PayAll(old(db.orders), lines)
    ensures db.artworks == SellAll(old(db.artworks), ArtworksOf(old(db.orders), lines))
    ensures db.payments == old(db.payments) && db.users == old(db.users)
    ensures db.verifications == old(db.verifications)
  {
    ghost var orders0, artworks0 := db.orders, db.artworks;
    assert OrdersReferenceArtworks(artworks0, orders0);
    assert PayAll(orders0, {}) == orders0;
    assert SellAll(artworks0, ArtworksOf(orders0, {})) == artworks0;
    var pending := lines;
    while pending != {}
      invariant pending <= lines
      invariant db.Valid()
      invariant db.orders == PayAll(orders0, lines - pending)
      invariant db.artworks == SellAll(artworks0, ArtworksOf(orders0, lines - pending))
      invariant db.payments == old(db.payments) && db.users == old(db.users)
      invariant db.verifications == old(db.verifications)
      decreases |pending|
    {
      var o :| o in pending;
      ghost var done := lines - pending;
      PayAllStep(orders0, done, o);
      SellAllStep(artworks0, orders0, done, o);
      db.CompleteOrder(o);
      pending := pending - {o};
      assert lines - pending == done + {o};
    }
    assert lines - pending == lines;
  }

  /** `checkout_view`, in the source's order: (1) delete every cart line whose
      artwork is not active and stop; (2) stop on an empty cart; (3) stop when
      the total is under 15000; (4) a GET shows the confirmation page; a POST
      completes every line: each order paid, each artwork sold. */
  method CheckoutView(db: Store, requester: UserId, isPost: bool) returns (r: CheckoutOutcome)
    requires db.Valid()
    modifies db
    ensures db.Valid()
    ensures db.users == old(db.users) && db.verifications == old(db.verifications)
    ensures var cart := Cart(old(db.orders), requester);
      var gone := Unavailable(old(db.artworks), old(db.orders), cart);
      gone != {} ==>
        && r == UnavailableRemoved(gone)
        && db.orders == old(db.orders) - gone
        && db.payments == WithoutPaymentsOf(old(db.payments), gone)
        && db.artworks == old(db.artworks)
    ensures var cart := Cart(old(db.orders), requester);
      Unavailable(old(db.artworks), old(db.orders), cart) == {} ==>
        && (cart == {} ==> r == EmptyCart && unchanged(db))
        && (cart != {} && PriceSum(old(db.orders), cart) < MinOrderAmount ==>
              r == BelowMinimum(PriceSum(old(db.orders), cart)) && unchanged(db))
        && (cart != {} && PriceSum(old(db.orders), cart) >= MinOrderAmount && !isPost ==>
              r == ConfirmPage(PriceSum(old(db.orders), cart)) && unchanged(db))
        && (cart != {} && PriceSum(old(db.orders), cart) >= MinOrderAmount && isPost ==>
              && r == Placed(PriceSum(old(db.orders), cart))
              && db.orders == PayAll(old(db.orders), cart)
              && db.artworks == SellAll(old(db.artworks), ArtworksOf(old(db.orders), cart))
              && db.payments == old(db.payments))
  {
    var cart := Cart(db.orders, requester);
    var unavailable := CollectUnavailable(db, cart);
    if unavailable != {} {
      DeleteLines(db, unavailable);
      return UnavailableRemoved(unavailable);
    }
    if cart == {} {
      return EmptyCart;
    }
    var total := SumPrices(db.orders, cart);
    if total < MinOrderAmount {
      return BelowMinimum(total);
    }
    if !isPost {
      return ConfirmPage(total);
    }
    CompleteLines(db, cart);
    return Placed(total);
  }
}
