/** The database behind the ORM, as one in-memory store: a table per model,
    keyed by primary key, and the row-level writes of gallery/main/models.py
    (`Order.complete_order`, `Payment.mark_as_completed`, `Order.delete`). */
module Db {
  import opened Base
  import opened Models

  class Store {
    var users: map<UserId, User>
    var artworks: map<ArtworkId, Artwork>
    var orders: map<OrderId, Order>
    var payments: map<PaymentId, Payment>
    var verifications: map<UserId, Verification>
    var nextUserId: UserId
    var nextOrderId: OrderId

    /** The constraints the schema enforces, plus fresh primary keys. */
    ghost predicate Valid()
      reads this
    {
      && (forall u | u in users :: u < nextUserId)
      && (forall o | o in orders :: o < nextOrderId)
      && UniqueUserKeys(users)
      && OrdersReferenceArtworks(artworks, orders)
      && UniqueCartLines(orders)
      && TotalsConsistent(orders)
      && PaymentsReferenceOrders(payments, orders)
      && OnePaymentPerOrder(payments)
    }

    constructor ()
      ensures Valid()
      ensures users == map[] && artworks == map[] && orders == map[]
      ensures payments == map[] && verifications == map[]
    {
      users, artworks, orders, payments, verifications := map[], map[], map[], map[], map[];
      nextUserId, nextOrderId := 0, 0;
    }

    /** `Order.complete_order`: the order becomes paid (and is saved, which
        keeps its total) and its artwork becomes sold; nothing else changes. */
    method CompleteOrder(id: OrderId)
      requires Valid() && id in orders
      modifies this
      ensures Valid()
      ensures orders == old(orders)[id := old(orders)[id].(status := Paid)]
      ensures var a := old(orders)[id].artwork;
        artworks == old(artworks)[a := old(artworks)[a].(status := Sold)]
      ensures users == old(users) && payments == old(payments) && verifications == old(verifications)
      ensures nextUserId == old(nextUserId) && nextOrderId == old(nextOrderId)
    {
      var o := orders[id];
      SaveOrderKeepsConsistent(o.(status := Paid));
      CartLinesKeptBy(orders, orders[id := SaveOrder(o.(status := Paid))]);
      orders := orders[id := SaveOrder(o.(status := Paid))];
      var a := artworks[o.artwork];
      artworks := artworks[o.artwork := a.(status := Sold)];
    }

    /** `Artwork.save` with changed fields other than the key: the row is
        replaced and nothing else changes. */
    method SaveArtwork(id: ArtworkId, a: Artwork)
      requires Valid() && id in artworks
      modifies this
      ensures Valid()
      ensures artworks == old(artworks)[id := a]
      ensures users == old(users) && orders == old(orders) && payments == old(payments)
      ensures verifications == old(verifications)
      ensures nextUserId == old(nextUserId) && nextOrderId == old(nextOrderId)
    {
      artworks := artworks[id := a];
    }

    /** `Payment.mark_as_completed`. */
    method MarkPaymentCompleted(id: PaymentId, now: Timestamp)
      requires Valid() && id in payments
      modifies this
      ensures Valid()
      ensures payments == old(payments)[id := CompletePayment(old(payments)[id], now)]
      ensures users == old(users) && artworks == old(artworks) && orders == old(orders)
      ensures verifications == old(verifications)
      ensures nextUserId == old(nextUserId) && nextOrderId == old(nextOrderId)
    {
      OnePaymentKeptBy(payments, payments[id := CompletePayment(payments[id], now)]);
      payments := payments[id := CompletePayment(payments[id], now)];
    }

    /** `Order.delete`: removes the order and, by cascade, its payment;
        returns the number of rows deleted, as `delete()[0]` does. */
    method DeleteOrder(id: OrderId) returns (deleted: nat)
      requires Valid() && id in orders
      modifies this
      ensures Valid()
      ensures orders == old(orders) - {id}
      ensures payments == WithoutPaymentsOf(old(payments), {id})
      ensures deleted == 1 + |PaymentsOf(old(payments), {id})|
      ensures users == old(users) && artworks == old(artworks) && verifications == old(verifications)
      ensures nextUserId == old(nextUserId) && nextOrderId == old(nextOrderId)
    {
      deleted := 1 + |PaymentsOf(payments, {id})|;
      CartLinesKeptBy(orders, orders - {id});
      OnePaymentKeptBy(payments, WithoutPaymentsOf(payments, {id}));
      orders := orders - {id};
      payments := WithoutPaymentsOf(payments, {id});
    }
  }
}
