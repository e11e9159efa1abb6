/** The periodic sweeps of gallery/main/tasks.py: archiving artworks listed
    for 30 days or more, and deleting cart orders left for 7 days or more.
    Each is one conditional bulk write returning the number of rows it
    touched; the clock is the `now` parameter. */
module Tasks {
  import opened Base
  import opened Models
  import opened Db

  // ---------------------------------------------------------------------
  // deactivate_old_artworks
  // ---------------------------------------------------------------------

  /** The filter `created_at__lte=now - 30 days, status='active'`; a missing
      `created_at` never matches a comparison. */
  predicate IsStale(a: Artwork, now: Timestamp)
  {
    a.status == Active && a.createdAt.Some? && a.createdAt.value <= now - 30 * SecondsPerDay
  }

  function StaleArtworks(artworks: map<ArtworkId, Artwork>, now: Timestamp): (s: set<ArtworkId>)
    ensures s <= artworks.Keys
  {
    set id | id in artworks && IsStale(artworks[id], now)
  }

  /** The table after `update(status='archived')` on the stale rows. */
  function Archive(artworks: map<ArtworkId, Artwork>, now: Timestamp): (r: map<ArtworkId, Artwork>)
    ensures r.Keys == artworks.Keys
  {
    map id | id in artworks ::
      if IsStale(artworks[id], now) then artworks[id].(status := Archived) else artworks[id]
  }

  /** `deactivate_old_artworks`: archives the stale artworks in one bulk
      update and returns how many rows it changed. */
  method DeactivateOldArtworks(db: Store, now: Timestamp) returns (count: nat)
    requires db.Valid()
    modifies db
    ensures db.Valid()
    ensures db.artworks == Archive(old(db.artworks), now)
    ensures count == |StaleArtworks(old(db.artworks), now)|
    ensures db.users == old(db.users) && db.orders == old(db.orders)
    ensures db.payments == old(db.payments) && db.verifications == old(db.verifications)
  {
    count := |StaleArtworks(db.artworks, now)|;
    db.artworks := Archive(db.artworks, now);
  }

  /** Exactly the stale artworks change, each only in its status, which
      becomes Archived; an artwork that is not active or is newer than the
      threshold is left as it was. */
  lemma ArchiveChangesExactlyStale(artworks: map<ArtworkId, Artwork>, now: Timestamp, id: ArtworkId)
    requires id in artworks
    ensures Archive(artworks, now)[id] != artworks[id] <==> IsStale(artworks[id], now)
    ensures IsStale(artworks[id], now) ==> Archive(artworks, now)[id] == artworks[id].(status := Archived)
    ensures IsStale(artworks[id], now) <==>
      artworks[id].status == Active && artworks[id].createdAt.Some? &&
      now - artworks[id].createdAt.value >= 30 * SecondsPerDay
  {
  }

  /** The count is the number of rows whose value changed. */
  lemma ArchiveCountIsChangedRows(artworks: map<ArtworkId, Artwork>, now: Timestamp)
    ensures StaleArtworks(artworks, now) ==
      set id | id in artworks && Archive(artworks, now)[id] != artworks[id]
  {
    var after := Archive(artworks, now);
    forall id | id in artworks
      ensures IsStale(artworks[id], now) <==> after[id] != artworks[id]
    {
      ArchiveChangesExactlyStale(artworks, now, id);
    }
  }

  /** Running the sweep again with the same clock finds nothing to archive. */
  lemma DeactivateTwiceArchivesNothing(artworks: map<ArtworkId, Artwork>, now: Timestamp)
    ensures StaleArtworks(Archive(artworks, now), now) == {}
    ensures Archive(Archive(artworks, now), now) == Archive(artworks, now)
  {
    var once := Archive(artworks, now);
    assert forall id | id in once :: !IsStale(once[id], now);
  }

  /** A later sweep finds at least the artworks an earlier one would have. */
  lemma StaleGrowsWithTime(artworks: map<ArtworkId, Artwork>, t1: Timestamp, t2: Timestamp)
    requires t1 <= t2
    ensures StaleArtworks(artworks, t1) <= StaleArtworks(artworks, t2)
  {
  }

  /** An artwork listed 31 days and one listed 29 days: only the first is
      archived and the reported count is one. */
  lemma ThirtyOneAndTwentyNineDays(seller: UserId, now: Timestamp)
    ensures var artworks := map[
        0 := Artwork(seller, 1000.0, Active, Some(now - 31 * SecondsPerDay)),
        1 := Artwork(seller, 1000.0, Active, Some(now - 29 * SecondsPerDay))];
      && |StaleArtworks(artworks, now)| == 1
      && Archive(artworks, now)[0].status == Archived
      && Archive(artworks, now)[1].status == Active
  {
    var artworks := map[
        0 := Artwork(seller, 1000.0, Active, Some(now - 31 * SecondsPerDay)),
        1 := Artwork(seller, 1000.0, Active, Some(now - 29 * SecondsPerDay))];
    assert IsStale(artworks[0], now) && !IsStale(artworks[1], now);
    assert StaleArtworks(artworks, now) == {0};
  }

  /** After the sweep no active artwork is old enough for a discount: the
      sweep archives at 30 days, the first discount tier starts at 31. */
  lemma NoDiscountSurvivesSweep(artworks: map<ArtworkId, Artwork>, now: Timestamp, id: ArtworkId)
    requires id in artworks
    requires Archive(artworks, now)[id].status == Active
    ensures !HasDiscount(Archive(artworks, now)[id], now)
    ensures DiscountedPrice(Archive(artworks, now)[id], now) == artworks[id].price
  {
    var a := Archive(artworks, now)[id];
    assert a == artworks[id];
    if a.createdAt.Some? {
      assert Listed(a, now) < 30 * SecondsPerDay;
    }
  }

  // ---------------------------------------------------------------------
  // cleanup_expired_carts
  // ---------------------------------------------------------------------

  /** The filter `status='created', created_at__lte=now - 7 days`. */
  predicate IsExpiredCart(o: Order, now: Timestamp)
  {
    o.status == Created && o.createdAt <= now - 7 * SecondsPerDay
  }

  function ExpiredCarts(orders: map<OrderId, Order>, now: Timestamp): (s: set<OrderId>)
    ensures s <= orders.Keys
  {
    set id | id in orders && IsExpiredCart(orders[id], now)
  }

  /** `cleanup_expired_carts`: deletes the expired cart orders, their payments
      going with them by cascade, and returns `delete()[0]`, the number of
      rows deleted across both tables. */
  method CleanupExpiredCarts(db: Store, now: Timestamp) returns (count: nat)
    requires db.Valid()
    modifies db
    ensures db.Valid()
    ensures var expired := ExpiredCarts(old(db.orders), now);
      && db.orders == old(db.orders) - expired
      && db.payments == WithoutPaymentsOf(old(db.payments), expired)
      && count == |expired| + |PaymentsOf(old(db.payments), expired)|
    ensures db.users == old(db.users) && db.artworks == old(db.artworks)
    ensures db.verifications == old(db.verifications)
  {
    var expired := ExpiredCarts(db.orders, now);
    count := |expired| + |PaymentsOf(db.payments, expired)|;
    CartLinesKeptBy(db.orders, db.orders - expired);
    OnePaymentKeptBy(db.payments, WithoutPaymentsOf(db.payments, expired));
    db.orders := db.orders - expired;
    db.payments := WithoutPaymentsOf(db.payments, expired);
  }

  /** Only cart orders are deleted: an order in any other status survives
      whatever its age, and so does a cart order younger than 7 days. */
  lemma CleanupSparesNonCartOrders(orders: map<OrderId, Order>, now: Timestamp, id: OrderId)
    requires id in orders
    ensures id in orders - ExpiredCarts(orders, now) <==>
      orders[id].status != Created || now - orders[id].createdAt < 7 * SecondsPerDay
  {
  }

  /** An expired cart is also past its 48-hour payment window. */
  lemma ExpiredCartPaymentExpired(o: Order, now: Timestamp)
    requires IsExpiredCart(o, now)
    ensures PaymentExpired(o, now)
  {
  }

  /** The count equals the number of orders deleted exactly when none of them
      had a payment. */
  lemma CleanupCountIsOrdersWithoutPayments(payments: map<PaymentId, Payment>, orders: map<OrderId, Order>, now: Timestamp)
    ensures var expired := ExpiredCarts(orders, now);
      |expired| + |PaymentsOf(payments, expired)| == |expired| <==>
      forall p | p in payments :: payments[p].order !in expired
  {
    var expired := ExpiredCarts(orders, now);
    if exists p | p in payments :: payments[p].order in expired {
      var p :| p in payments && payments[p].order in expired;
      assert p in PaymentsOf(payments, expired);
    }
  }

  /** A second cleanup with the same clock deletes nothing. */
  lemma CleanupTwiceDeletesNothing(orders: map<OrderId, Order>, now: Timestamp)
    ensures ExpiredCarts(orders - ExpiredCarts(orders, now), now) == {}
  {
  }
}
