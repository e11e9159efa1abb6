/** The bulk actions of gallery/main/admin.py over a selection of rows: the
    artwork actions (apply a discount, mark sold), the order actions (mark
    paid, mark delivered), the payment action (mark completed) and the
    verification actions (verify, reject). A selection is a set of keys; keys
    with no row are ignored, as a queryset only holds existing rows. */
module AdminActions {
  import opened Base
  import opened Models
  import opened Db

  // ---------------------------------------------------------------------
  // ArtworkAdmin.apply_discount
  // ---------------------------------------------------------------------

  /** `artwork.pk and artwork.has_discount`: the key must be truthy, which
      the auto-increment keys always are, and the listing old enough. */
  predicate DiscountEligible(id: ArtworkId, a: Artwork, now: Timestamp)
  {
    id != 0 && HasDiscount(a, now)
  }

  /** The table after the eligible artworks of `ids` are repriced at
      `calculate_discount_price`. */
  function Discounted(artworks: map<ArtworkId, Artwork>, ids: set<ArtworkId>, now: Timestamp): (r: map<ArtworkId, Artwork>)
    ensures r.Keys == artworks.Keys
  {
    map id | id in artworks ::
      if id in ids && DiscountEligible(id, artworks[id], now)
      then artworks[id].(price := CalculateDiscountPrice(artworks[id], now))
      else artworks[id]
  }

  /** The eligible artworks of a selection. */
  function EligibleIn(artworks: map<ArtworkId, Artwork>, ids: set<ArtworkId>, now: Timestamp): (s: set<ArtworkId>)
    ensures s <= ids && s <= artworks.Keys
  {
    set id | id in ids && id in artworks && DiscountEligible(id, artworks[id], now)
  }

  lemma DiscountedEnds(artworks: map<ArtworkId, Artwork>, ids: set<ArtworkId>, now: Timestamp)
    ensures Discounted(artworks, {}, now) == artworks
    ensures EligibleIn(artworks, {}, now) == {}
    ensures Discounted(artworks, ids * artworks.Keys, now) == Discounted(artworks, ids, now)
    ensures EligibleIn(artworks, ids * artworks.Keys, now) == EligibleIn(artworks, ids, now)
  {
  }

  lemma DiscountedStep(artworks: map<ArtworkId, Artwork>, done: set<ArtworkId>, id: ArtworkId, now: Timestamp)
    requires id in artworks && id !in done
    ensures var cur := Discounted(artworks, done, now);
      Discounted(artworks, done + {id}, now) ==
        if DiscountEligible(id, artworks[id], now)
        then cur[id := cur[id].(price := CalculateDiscountPrice(cur[id], now))]
        else cur
  {
  }

  lemma EligibleCountStep(artworks: map<ArtworkId, Artwork>, done: set<ArtworkId>, id: ArtworkId, now: Timestamp)
    requires id in artworks && id !in done
    ensures |EligibleIn(artworks, done + {id}, now)| ==
      |EligibleIn(artworks, done, now)| + if DiscountEligible(id, artworks[id], now) then 1 else 0
  {
    if DiscountEligible(id, artworks[id], now) {
      assert EligibleIn(artworks, done + {id}, now) == EligibleIn(artworks, done, now) + {id};
    } else {
      assert EligibleIn(artworks, done + {id}, now) == EligibleIn(artworks, done, now);
    }
  }

  /** One iteration of `apply_discount`: reprices the artwork when it is
      eligible and reports whether it did. */
  method DiscountOne(db: Store, id: ArtworkId, now: Timestamp) returns (hit: bool)
    requires db.Valid() && id in db.artworks
    modifies db
    ensures db.Valid()
    ensures hit <==> DiscountEligible(id, old(db.artworks)[id], now)
    ensures db.artworks == if hit
      then old(db.artworks)[id := old(db.artworks)[id].(price := CalculateDiscountPrice(old(db.artworks)[id], now))]
      else old(db.artworks)
    ensures db.users == old(db.users) && db.orders == old(db.orders)
    ensures db.payments == old(db.payments) && db.verifications == old(db.verifications)
  {
    var artwork := db.artworks[id];
    hit := id != 0 && HasDiscount(artwork, now);
    if hit {
      db.SaveArtwork(id, artwork.(price := CalculateDiscountPrice(artwork, now)));
    }
  }

  /** `apply_discount`: walks the selection, repricing each eligible artwork
      and counting it; `warned` is the "no artworks with a discount" warning
      given when the count is zero. */
  method ApplyDiscount(db: Store, selected: set<ArtworkId>, now: Timestamp) returns (updated: nat, warned: bool)
    requires db.Valid()
    modifies db
    ensures db.Valid()
    ensures db.artworks == Discounted(old(db.artworks), selected, now)
    ensures updated == |EligibleIn(old(db.artworks), selected, now)|
    ensures warned <==> updated == 0
    ensures db.users == old(db.users) && db.orders == old(db.orders)
    ensures db.payments == old(db.payments) && db.verifications == old(db.verifications)
  {
    ghost var artworks0 := db.artworks;
    var queryset := selected * db.artworks.Keys;
    DiscountedEnds(artworks0, selected, now);
    var pending := queryset;
    ghost var done: set<ArtworkId> := {};
    updated := 0;
    while pending != {}
      invariant pending <= queryset && done <= queryset
      invariant done !! pending && done + pending == queryset
      invariant db.Valid()
      invariant db.artworks == Discounted(artworks0, done, now)
      invariant updated == |EligibleIn(artworks0, done, now)|
      invariant db.users == old(db.users) && db.orders == old(db.orders)
      invariant db.payments == old(db.payments) && db.verifications == old(db.verifications)
      decreases |pending|
    {
      var id :| id in pending;
      DiscountedStep(artworks0, done, id, now);
      EligibleCountStep(artworks0, done, id, now);
      MoveToDone(queryset, done, pending, id);
      var hit := DiscountOne(db, id, now);
      if hit {
        updated := updated + 1;
      }
      pending := pending - {id};
      done := done + {id};
    }
    warned := updated == 0;
  }

  /** Exactly the eligible selected artworks change, and only in price; for a
      non-negative price the new price is never higher. */
  lemma ApplyDiscountChangesOnlyEligible(artworks: map<ArtworkId, Artwork>, selected: set<ArtworkId>, now: Timestamp, id: ArtworkId)
    requires id in artworks
    ensures var after := Discounted(artworks, selected, now)[id];
      && after.(price := artworks[id].price) == artworks[id]
      && (id !in EligibleIn(artworks, selected, now) ==> after == artworks[id])
      && (id in EligibleIn(artworks, selected, now) ==> after.price == DiscountedPrice(artworks[id], now))
      && (artworks[id].price >= 0.0 ==> after.price <= artworks[id].price)
  {
    if artworks[id].price >= 0.0 {
      DiscountNeverRaisesPrice(artworks[id], now);
    }
  }

  /** The action is not idempotent: the listing date is untouched, so a
      second run discounts the already discounted price again. */
  lemma ApplyDiscountTwiceCompounds(artworks: map<ArtworkId, Artwork>, selected: set<ArtworkId>, now: Timestamp, id: ArtworkId)
    requires id in EligibleIn(artworks, selected, now)
    ensures var p := DiscountPercentage(artworks[id], now);
      Discounted(Discounted(artworks, selected, now), selected, now)[id].price
        == artworks[id].price * (1.0 - p) * (1.0 - p)
  {
    var a := artworks[id];
    var once := Discounted(artworks, selected, now)[id];
    assert once == a.(price := DiscountedPrice(a, now));
    assert DiscountPercentage(once, now) == DiscountPercentage(a, now);
  }

  // ---------------------------------------------------------------------
  // Bulk status updates
  // ---------------------------------------------------------------------

  /** The artworks table after `queryset.update(status=s)`. */
  function SetArtworkStatus(artworks: map<ArtworkId, Artwork>, ids: set<ArtworkId>, s: ArtworkStatus): (r: map<ArtworkId, Artwork>)
    ensures r.Keys == artworks.Keys
    ensures forall id | id in r :: r[id].(status := artworks[id].status) == artworks[id]
    ensures forall id | id in r :: (id in ids ==> r[id].status == s) && (id !in ids ==> r[id] == artworks[id])
  {
    map id | id in artworks :: if id in ids then artworks[id].(status := s) else artworks[id]
  }

  /** The orders table after `queryset.update(status=s)`. */
  function SetOrderStatus(orders: map<OrderId, Order>, ids: set<OrderId>, s: OrderStatus): (r: map<OrderId, Order>)
    ensures r.Keys == orders.Keys
    ensures forall id | id in r :: r[id].(status := orders[id].status) == orders[id]
    ensures forall id | id in r :: (id in ids ==> r[id].status == s) && (id !in ids ==> r[id] == orders[id])
  {
    map id | id in orders :: if id in ids then orders[id].(status := s) else orders[id]
  }

  /** `mark_as_sold`: every selected artwork becomes sold; the reported count
      is the number of selected rows. */
  method MarkAsSold(db: Store, selected: set<ArtworkId>) returns (updated: nat)
    requires db.Valid()
    modifies db
    ensures db.Valid()
    ensures db.artworks == SetArtworkStatus(old(db.artworks), selected, Sold)
    ensures updated == |selected * old(db.artworks).Keys|
    ensures db.users == old(db.users) && db.orders == old(db.orders)
    ensures db.payments == old(db.payments) && db.verifications == old(db.verifications)
  {
    updated := |selected * db.artworks.Keys|;
    db.artworks := SetArtworkStatus(db.artworks, selected, Sold);
  }

  /** A status update moving no order into Created keeps the one-cart-line
      rule and the stored totals. */
  lemma SetOrderStatusKeepsInvariants(orders: map<OrderId, Order>, ids: set<OrderId>, s: OrderStatus)
    requires UniqueCartLines(orders) && TotalsConsistent(orders) && s != Created
    ensures UniqueCartLines(SetOrderStatus(orders, ids, s))
    ensures TotalsConsistent(SetOrderStatus(orders, ids, s))
  {
    CartLinesKeptBy(orders, SetOrderStatus(orders, ids, s));
  }

  /** `mark_as_paid`: every selected order becomes paid, whatever its status;
      unlike `complete_order` the artworks are left alone. */
  method MarkAsPaid(db: Store, selected: set<OrderId>) returns (updated: nat)
    requires db.Valid()
    modifies db
    ensures db.Valid()
    ensures db.orders == SetOrderStatus(old(db.orders), selected, Paid)
    ensures updated == |selected * old(db.orders).Keys|
    ensures db.users == old(db.users) && db.artworks == old(db.artworks)
    ensures db.payments == old(db.payments) && db.verifications == old(db.verifications)
  {
    SetOrderStatusKeepsInvariants(db.orders, selected, Paid);
    updated := |selected * db.orders.Keys|;
    db.orders := SetOrderStatus(db.orders, selected, Paid);
  }

  /** `mark_as_delivered`: every selected order becomes delivered. */
  method MarkAsDelivered(db: Store, selected: set<OrderId>) returns (updated: nat)
    requires db.Valid()
    modifies db
    ensures db.Valid()
    ensures db.orders == SetOrderStatus(old(db.orders), selected, Delivered)
    ensures updated == |selected * old(db.orders).Keys|
    ensures db.users == old(db.users) && db.artworks == old(db.artworks)
    ensures db.payments == old(db.payments) && db.verifications == old(db.verifications)
  {
    SetOrderStatusKeepsInvariants(db.orders, selected, Delivered);
    updated := |selected * db.orders.Keys|;
    db.orders := SetOrderStatus(db.orders, selected, Delivered);
  }

  /** There is no forward-only check: a delivered order marked paid goes
      back to paid, and marking paid then delivered ends delivered. */
  lemma OrderStatusActionsOverwrite(orders: map<OrderId, Order>, id: OrderId)
    requires id in orders && orders[id].status == Delivered
    ensures SetOrderStatus(orders, {id}, Paid)[id].status == Paid
    ensures SetOrderStatus(SetOrderStatus(orders, {id}, Paid), {id}, Delivered)[id] == orders[id]
  {
  }

  /** Marking a cart line paid from the admin takes its artwork out of every
      cart. The action leaves the artworks table alone (see `MarkAsPaid`), so
      the artwork stays active and can be added to a cart again. */
  lemma MarkAsPaidFreesArtwork(orders: map<OrderId, Order>, id: OrderId)
    requires UniqueCartLines(orders) && id in orders && orders[id].status == Created
    ensures var a := orders[id].artwork;
      InCart(orders, a) && !InCart(SetOrderStatus(orders, {id}, Paid), a)
  {
    var a := orders[id].artwork;
    var after := SetOrderStatus(orders, {id}, Paid);
    forall o | o in after && after[o].artwork == a
      ensures after[o].status != Created
    {
      assert DistinctCartLines(orders, o, id);
    }
  }

  // ---------------------------------------------------------------------
  // PaymentAdmin.mark_as_completed
  // ---------------------------------------------------------------------

  /** The payments table after `mark_as_completed` on each row of `ids`. */
  function CompleteAll(payments: map<PaymentId, Payment>, ids: set<PaymentId>, now: Timestamp): (r: map<PaymentId, Payment>)
    ensures r.Keys == payments.Keys
  {
    map p | p in payments :: if p in ids then CompletePayment(payments[p], now) else payments[p]
  }

  lemma CompleteAllEnds(payments: map<PaymentId, Payment>, ids: set<PaymentId>, now: Timestamp)
    ensures CompleteAll(payments, {}, now) == payments
    ensures CompleteAll(payments, ids * payments.Keys, now) == CompleteAll(payments, ids, now)
  {
  }

  lemma CompleteAllStep(payments: map<PaymentId, Payment>, done: set<PaymentId>, p: PaymentId, now: Timestamp)
    requires p in payments && p !in done
    ensures var cur := CompleteAll(payments, done, now);
      CompleteAll(payments, done + {p}, now) == cur[p := CompletePayment(cur[p], now)]
  {
  }

  /** The payment action: calls `mark_as_completed` on every selected payment
      and reports the size of the selection. */
  method MarkPaymentsCompleted(db: Store, selected: set<PaymentId>, now: Timestamp) returns (count: nat)
    requires db.Valid()
    modifies db
    ensures db.Valid()
    ensures db.payments == CompleteAll(old(db.payments), selected, now)
    ensures count == |selected * old(db.payments).Keys|
    ensures db.users == old(db.users) && db.artworks == old(db.artworks)
    ensures db.orders == old(db.orders) && db.verifications == old(db.verifications)
  {
    ghost var payments0 := db.payments;
    var queryset := selected * db.payments.Keys;
    CompleteAllEnds(payments0, selected, now);
    var pending := queryset;
    ghost var done: set<PaymentId> := {};
    while pending != {}
      invariant pending <= queryset && done <= queryset
      invariant done !! pending && done + pending == queryset
      invariant db.Valid()
      invariant db.payments == CompleteAll(payments0, done, now)
      invariant db.users == old(db.users) && db.artworks == old(db.artworks)
      invariant db.orders == old(db.orders) && db.verifications == old(db.verifications)
      decreases |pending|
    {
      var p :| p in pending;
      CompleteAllStep(payments0, done, p, now);
      MoveToDone(queryset, done, pending, p);
      db.MarkPaymentCompleted(p, now);
      pending := pending - {p};
      done := done + {p};
    }
    count := |queryset|;
  }

  /** Running the action twice leaves the same payments as running it once at
      the later time: only `completed_at` moves. */
  lemma MarkPaymentsCompletedTwice(payments: map<PaymentId, Payment>, selected: set<PaymentId>, t1: Timestamp, t2: Timestamp)
    ensures CompleteAll(CompleteAll(payments, selected, t1), selected, t2) == CompleteAll(payments, selected, t2)
  {
    forall p | p in payments && p in selected
      ensures CompletePayment(CompletePayment(payments[p], t1), t2) == CompletePayment(payments[p], t2)
    {
      CompletePaymentAgain(payments[p], t1, t2);
    }
  }

  // ---------------------------------------------------------------------
  // VerificationAdmin.verify_users and reject_verifications
  // ---------------------------------------------------------------------

  /** A verification after `verify_users` has processed it. */
  function Verify(v: Verification, actor: UserId, now: Timestamp): (r: Verification)
    ensures r.status == Verified && r.verifiedBy == Some(actor) && r.verifiedAt == Some(now)
  {
    v.(status := Verified, verifiedBy := Some(actor), verifiedAt := Some(now))
  }

  function VerifyAll(verifications: map<UserId, Verification>, ids: set<UserId>, actor: UserId, now: Timestamp): (r: map<UserId, Verification>)
    ensures r.Keys == verifications.Keys
  {
    map u | u in verifications :: if u in ids then Verify(verifications[u], actor, now) else verifications[u]
  }

  datatype ActionError = NameError

  /** `verify_users` as written: `timezone` is not imported in the admin
      module, so on a non-empty selection the first row raises NameError
      before it is saved and the action changes nothing; on an empty
      selection the loop body never runs. */
  function VerifyUsersAsWritten(verifications: map<UserId, Verification>, selected: set<UserId>): (r: Result<map<UserId, Verification>, ActionError>)
    ensures r.Failure? <==> selected * verifications.Keys != {}
    ensures r.Success? ==> r.value == verifications
  {
    if selected * verifications.Keys != {} then Failure(NameError) else Success(verifications)
  }

  /** `verify_users` as evidently intended, with the clock passed in: each
      selected verification is marked verified by the acting user at `now`
      and saved; the count is the size of the selection. */
  method VerifyUsers(db: Store, selected: set<UserId>, actor: UserId, now: Timestamp) returns (count: nat)
    requires db.Valid()
    modifies db
    ensures db.Valid()
    ensures db.verifications == VerifyAll(old(db.verifications), selected, actor, now)
    ensures count == |selected * old(db.verifications).Keys|
    ensures db.users == old(db.users) && db.artworks == old(db.artworks)
    ensures db.orders == old(db.orders) && db.payments == old(db.payments)
  {
    ghost var verifications0 := db.verifications;
    var queryset := selected * db.verifications.Keys;
    assert VerifyAll(verifications0, {}, actor, now) == verifications0;
    var pending := queryset;
    while pending != {}
      invariant pending <= queryset
      invariant db.Valid()
      invariant db.verifications == VerifyAll(verifications0, queryset - pending, actor, now)
      invariant db.users == old(db.users) && db.artworks == old(db.artworks)
      invariant db.orders == old(db.orders) && db.payments == old(db.payments)
      decreases |pending|
    {
      var u :| u in pending;
      ghost var done := queryset - pending;
      assert VerifyAll(verifications0, done + {u}, actor, now)
        == VerifyAll(verifications0, done, actor, now)[u := Verify(verifications0[u], actor, now)];
      var v := db.verifications[u];
      db.verifications := db.verifications[u := Verify(v, actor, now)];
      pending := pending - {u};
      assert queryset - pending == done + {u};
    }
    assert queryset - pending == queryset;
    assert VerifyAll(verifications0, queryset, actor, now) == VerifyAll(verifications0, selected, actor, now);
    count := |queryset|;
  }

  /** A freshly verified user is active at the moment of verification and
      for 365 days after, and no longer. */
  lemma VerifiedIsActiveForAYear(v: Verification, actor: UserId, now: Timestamp, later: Timestamp)
    ensures IsVerificationActive(Verify(v, actor, now), now)
    ensures IsVerificationActive(Verify(v, actor, now), later) <==> later - now < 365 * SecondsPerDay
  {
  }

  /** The counterexample: one pending verification selected. As written the
      action fails and the user stays unverified; as intended the user is
      verified and active. */
  lemma VerifyUsersCounterexample(actor: UserId, now: Timestamp)
    ensures var vs := map[7 := Verification(VerificationPending, None, None)];
      && VerifyUsersAsWritten(vs, {7}) == Failure(NameError)
      && VerifyAll(vs, {7}, actor, now)[7].status == Verified
      && IsVerificationActive(VerifyAll(vs, {7}, actor, now)[7], now)
  {
    var vs := map[7 := Verification(VerificationPending, None, None)];
    assert 7 in {7} * vs.Keys;
  }

  /** `reject_verifications`: the selected rows become rejected; the reported
      count is the number of selected rows. */
  method RejectVerifications(db: Store, selected: set<UserId>) returns (updated: nat)
    requires db.Valid()
    modifies db
    ensures db.Valid()
    ensures db.verifications == RejectAll(old(db.verifications), selected)
    ensures updated == |selected * old(db.verifications).Keys|
    ensures db.users == old(db.users) && db.artworks == old(db.artworks)
    ensures db.orders == old(db.orders) && db.payments == old(db.payments)
  {
    updated := |selected * db.verifications.Keys|;
    db.verifications := RejectAll(db.verifications, selected);
  }

  function RejectAll(verifications: map<UserId, Verification>, ids: set<UserId>): (r: map<UserId, Verification>)
    ensures r.Keys == verifications.Keys
  {
    map u | u in verifications :: if u in ids then verifications[u].(status := Rejected) else verifications[u]
  }

  /** Rejecting touches only the status, and `is_verification_active` reads
      only `verified_at`: a verification rejected within a year of being
      verified still counts as active. */
  lemma RejectedVerificationStaysActive(verifications: map<UserId, Verification>, u: UserId, now: Timestamp)
    requires u in verifications
    ensures RejectAll(verifications, {u})[u].status == Rejected
    ensures IsVerificationActive(RejectAll(verifications, {u})[u], now) <==> IsVerificationActive(verifications[u], now)
  {
  }
}
