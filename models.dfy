/** The entities of gallery/main/models.py and the computations they carry:
    age-based discount pricing, order totals, payment and verification ageing,
    the artist's age, the year validator, the artwork cleaning rule, and the
    database constraints as predicates over the tables. */
module Models {
  import opened Base

  // ---------------------------------------------------------------------
  // Entities
  // ---------------------------------------------------------------------

  datatype Role = Buyer | Seller | Moderator | Admin

  datatype User = User(
    email: string,
    username: string,
    firstName: string,
    lastName: string,
    socialId: Option<string>,
    role: Role,
    isActive: bool,
    isStaff: bool,
    isSuperuser: bool)

  datatype ArtworkStatus = Active | Sold | Reserved | Archived

  /** The fields of an artwork that the core reads or writes; `createdAt` is
      nullable in the schema. */
  datatype Artwork = Artwork(
    seller: UserId,
    price: Money,
    status: ArtworkStatus,
    createdAt: Option<Timestamp>)

  datatype OrderStatus = Created | Paid | Shipped | Delivered | Completed | Disputed | Cancelled

  /** An order; in status Created it is a cart line. */
  datatype Order = Order(
    buyer: UserId,
    artwork: ArtworkId,
    price: Money,
    status: OrderStatus,
    createdAt: Timestamp,
    shippingCost: Money,
    insurance: bool,
    insuranceCost: Money,
    totalPrice: Money)

  datatype PaymentStatus = PaymentPending | PaymentCompleted | PaymentRefunded | PaymentFailed

  datatype Payment = Payment(
    order: OrderId,
    amount: Money,
    status: PaymentStatus,
    createdAt: Timestamp,
    completedAt: Option<Timestamp>)

  datatype VerificationStatus = VerificationPending | Verified | Rejected

  datatype Verification = Verification(
    status: VerificationStatus,
    verifiedBy: Option<UserId>,
    verifiedAt: Option<Timestamp>)

  datatype Date = Date(year: int, month: int, day: int)

  datatype Artist = Artist(birthDate: Option<Date>, deathDate: Option<Date>)

  // ---------------------------------------------------------------------
  // Discount pricing (Artwork properties)
  // ---------------------------------------------------------------------

  /** Whole days since the artwork was listed. */
  function AgeDays(a: Artwork, now: Timestamp): int
    requires a.createdAt.Some?
  {
    DaysBetween(now, a.createdAt.value)
  }

  /** The listing age in seconds, for stating the tier boundaries exactly. */
  function Listed(a: Artwork, now: Timestamp): int
    requires a.createdAt.Some?
  {
    now - a.createdAt.value
  }

  /** `discount_percentage`: the fraction taken off the list price. */
  function DiscountPercentage(a: Artwork, now: Timestamp): (r: real)
    ensures r == 0.0 || r == 0.1 || r == 0.2 || r == 0.3
    ensures r > 0.0 <==> a.createdAt.Some? && Listed(a, now) >= 31 * SecondsPerDay
    ensures r == 0.3 <==> a.createdAt.Some? && Listed(a, now) >= 181 * SecondsPerDay
    ensures r == 0.2 <==> a.createdAt.Some? && 91 * SecondsPerDay <= Listed(a, now) < 181 * SecondsPerDay
    ensures r == 0.1 <==> a.createdAt.Some? && 31 * SecondsPerDay <= Listed(a, now) < 91 * SecondsPerDay
  {
    if a.createdAt.None? then 0.0
    else
      DaysExceed(now, a.createdAt.value, 180);
      DaysExceed(now, a.createdAt.value, 30);
      if AgeDays(a, now) > 180 then 0.3
      else if AgeDays(a, now) > 90 then 0.2
      else if AgeDays(a, now) > 30 then 0.1
      else 0.0
  }

  /** `discounted_price`: the list price scaled by the age tier. */
  function DiscountedPrice(a: Artwork, now: Timestamp): (r: Money)
    ensures r == a.price * (1.0 - DiscountPercentage(a, now))
  {
    if a.createdAt.None? then a.price
    else if AgeDays(a, now) > 180 then a.price * 0.7
    else if AgeDays(a, now) > 90 then a.price * 0.8
    else if AgeDays(a, now) > 30 then a.price * 0.9
    else a.price
  }

  /** `has_discount`. */
  predicate HasDiscount(a: Artwork, now: Timestamp)
    ensures HasDiscount(a, now) <==> DiscountPercentage(a, now) > 0.0
  {
    if a.createdAt.None? then false else AgeDays(a, now) > 30
  }

  /** The label `discount_status` shows; the source returns a translated
      string "Скидка N%" or "Без скидки". */
  datatype DiscountLabel = NoDiscount | PercentOff(percent: nat)

  /** `discount_status`: names the same tier as `discount_percentage`. */
  function DiscountStatus(a: Artwork, now: Timestamp): (r: DiscountLabel)
    ensures r == NoDiscount <==> !HasDiscount(a, now)
    ensures r.PercentOff? ==> r.percent as real / 100.0 == DiscountPercentage(a, now)
  {
    if a.createdAt.None? then NoDiscount
    else if AgeDays(a, now) > 180 then PercentOff(30)
    else if AgeDays(a, now) > 90 then PercentOff(20)
    else if AgeDays(a, now) > 30 then PercentOff(10)
    else NoDiscount
  }

  /** `calculate_discount_price`: a second copy of the tier chain in the
      source, used by the admin's discount action. */
  function CalculateDiscountPrice(a: Artwork, now: Timestamp): (r: Money)
    ensures r == DiscountedPrice(a, now)
  {
    if a.createdAt.None? then a.price
    else
      var days := DaysBetween(now, a.createdAt.value);
      if days > 180 then a.price * 0.7
      else if days > 90 then a.price * 0.8
      else if days > 30 then a.price * 0.9
      else a.price
  }

  /** The tiers stated on elapsed time: each boundary is reached only after
      the full day past 30, 90 or 180 has elapsed. */
  lemma {:induction false} DiscountTiers(a: Artwork, now: Timestamp)
    requires a.createdAt.Some?
    ensures Listed(a, now) >= 181 * SecondsPerDay ==> DiscountedPrice(a, now) == a.price * 0.7
    ensures 91 * SecondsPerDay <= Listed(a, now) < 181 * SecondsPerDay ==> DiscountedPrice(a, now) == a.price * 0.8
    ensures 31 * SecondsPerDay <= Listed(a, now) < 91 * SecondsPerDay ==> DiscountedPrice(a, now) == a.price * 0.9
    ensures Listed(a, now) < 31 * SecondsPerDay ==> DiscountedPrice(a, now) == a.price
  {
    var c := a.createdAt.value;
    DaysExceed(now, c, 180);
    DaysExceed(now, c, 90);
    DaysExceed(now, c, 30);
  }

  /** With a non-negative price the discount never raises it; with a
      positive price (the model's validator demands at least 0.01) the price
      is kept exactly when the artwork is undated or under 31 days old. */
  lemma DiscountNeverRaisesPrice(a: Artwork, now: Timestamp)
    requires a.price >= 0.0
    ensures DiscountedPrice(a, now) <= a.price
    ensures a.price > 0.0 ==>
      (DiscountedPrice(a, now) == a.price <==> a.createdAt.None? || Listed(a, now) < 31 * SecondsPerDay)
  {
  }

  /** An item priced 1000 and listed 100 days ago costs 800 and is marked
      as discounted. */
  lemma HundredDayOldArtwork(seller: UserId, now: Timestamp)
    ensures var a := Artwork(seller, 1000.0, Active, Some(now - 100 * SecondsPerDay));
      DiscountedPrice(a, now) == 800.0 && HasDiscount(a, now) && DiscountStatus(a, now) == PercentOff(20)
  {
  }

  // ---------------------------------------------------------------------
  // Orders and payments
  // ---------------------------------------------------------------------

  /** The sum `Order.save` stores in `total_price`. */
  predicate TotalConsistent(o: Order)
  {
    o.totalPrice == o.price + o.shippingCost + o.insuranceCost
  }

  /** `Order.save`: recomputes the total from its three components and
      changes nothing else. */
  function SaveOrder(o: Order): (r: Order)
    ensures TotalConsistent(r)
    ensures r.(totalPrice := o.totalPrice) == o
  {
    o.(totalPrice := o.price + o.shippingCost + o.insuranceCost)
  }

  /** Saving an order whose total already agrees changes nothing. */
  lemma SaveOrderKeepsConsistent(o: Order)
    requires TotalConsistent(o)
    ensures SaveOrder(o) == o
  {
  }

  /** `payment_expired`: more than 48 hours have passed since creation. */
  predicate PaymentExpired(o: Order, now: Timestamp)
    ensures PaymentExpired(o, now) <==> now >= o.createdAt + 172801
  {
    now - o.createdAt > 48 * SecondsPerHour
  }

  /** The window is strict: an order exactly 48 hours old has not expired,
      one a second older has, and once expired it stays expired. */
  lemma PaymentExpiryBoundary(o: Order, t1: Timestamp, t2: Timestamp)
    ensures !PaymentExpired(o, o.createdAt + 48 * SecondsPerHour)
    ensures PaymentExpired(o, o.createdAt + 48 * SecondsPerHour + 1)
    ensures t1 <= t2 && PaymentExpired(o, t1) ==> PaymentExpired(o, t2)
  {
  }

  /** `Payment.mark_as_completed`. */
  function CompletePayment(p: Payment, now: Timestamp): (r: Payment)
    ensures r.status == PaymentCompleted && r.completedAt == Some(now)
    ensures r.order == p.order && r.amount == p.amount && r.createdAt == p.createdAt
  {
    p.(status := PaymentCompleted, completedAt := Some(now))
  }

  /** Completing a payment again only refreshes its timestamp. */
  lemma CompletePaymentAgain(p: Payment, t1: Timestamp, t2: Timestamp)
    ensures CompletePayment(CompletePayment(p, t1), t2) == CompletePayment(p, t2)
    ensures CompletePayment(CompletePayment(p, t1), t2).(completedAt := Some(t1)) == CompletePayment(p, t1)
  {
  }

  // ---------------------------------------------------------------------
  // Verification, artist, year
  // ---------------------------------------------------------------------

  /** `verification_age`: whole days since verification, None if never verified. */
  function VerificationAge(v: Verification, now: Timestamp): (r: Option<int>)
    ensures r.Some? <==> v.verifiedAt.Some?
    ensures r.Some? ==>
      r.value * SecondsPerDay <= now - v.verifiedAt.value < (r.value + 1) * SecondsPerDay
  {
    if v.verifiedAt.Some? then Some(DaysBetween(now, v.verifiedAt.value)) else None
  }

  /** `is_verification_active`: verified less than 365 whole days ago. */
  predicate IsVerificationActive(v: Verification, now: Timestamp)
    ensures IsVerificationActive(v, now) <==>
      v.verifiedAt.Some? && now - v.verifiedAt.value < 365 * SecondsPerDay
  {
    var age := VerificationAge(v, now);
    if age.Some? then
      DaysExceed(now, v.verifiedAt.value, 364);
      age.value < 365
    else false
  }

  /** Lexicographic order on (year, month, day), as Python compares tuples. */
  predicate DateBefore(x: Date, y: Date)
  {
    x.year < y.year || (x.year == y.year && (x.month < y.month || (x.month == y.month && x.day < y.day)))
  }

  /** `Artist.age`: completed years between the birth date and today. The
      result n is the number of birthdays passed: the n-th anniversary of the
      birth date is not after today and the (n+1)-th is. */
  function ArtistAge(a: Artist, today: Date): (r: Option<int>)
    ensures r.Some? <==> a.birthDate.Some?
    ensures r.Some? ==>
      var b := a.birthDate.value;
      !DateBefore(today, Date(b.year + r.value, b.month, b.day)) &&
      DateBefore(today, Date(b.year + r.value + 1, b.month, b.day))
  {
    if a.birthDate.Some? then
      var b := a.birthDate.value;
      Some(today.year - b.year - (if DateBefore(Date(0, today.month, today.day), Date(0, b.month, b.day)) then 1 else 0))
    else None
  }

  /** `Artist.is_alive`. */
  predicate IsAlive(a: Artist)
    ensures IsAlive(a) <==> a.deathDate == None
  {
    a.deathDate.None?
  }

  datatype ValidationError = IncorrectYear | ArtworkInCart

  /** `validate_year`, with the current year passed in. */
  function ValidateYear(year: int, currentYear: int): (r: Option<ValidationError>)
    ensures r == None <==> 1000 <= year <= currentYear
    ensures r.Some? ==> r.value == IncorrectYear
  {
    if year < 1000 || year > currentYear then Some(IncorrectYear) else None
  }

  // ---------------------------------------------------------------------
  // Tables and the constraints the database keeps on them
  // ---------------------------------------------------------------------

  /** A Created order exists for the artwork: it sits in somebody's cart. */
  predicate InCart(orders: map<OrderId, Order>, artwork: ArtworkId)
  {
    exists o | o in orders :: orders[o].artwork == artwork && orders[o].status == Created
  }

  /** `Artwork.clean`: an unsaved artwork (no primary key) is not checked;
      a saved active artwork that is in a cart is rejected. */
  function CleanArtwork(pk: Option<ArtworkId>, status: ArtworkStatus, orders: map<OrderId, Order>): (r: Option<ValidationError>)
    ensures pk.None? ==> r == None
    ensures r.Some? <==> (pk.Some? && status == Active &&
      exists o | o in orders :: orders[o].artwork == pk.value && orders[o].status == Created)
    ensures r.Some? ==> r.value == ArtworkInCart
  {
    if pk.None? then None
    else if status == Active && InCart(orders, pk.value) then Some(ArtworkInCart)
    else None
  }

  /** The `unique_artwork_in_cart` constraint: no two Created orders share
      an artwork. */
  ghost predicate UniqueCartLines(orders: map<OrderId, Order>)
  {
    forall o1, o2 :: DistinctCartLines(orders, o1, o2)
  }

  /** Two cart lines for the same artwork are the same order. */
  ghost predicate DistinctCartLines(orders: map<OrderId, Order>, o1: OrderId, o2: OrderId)
  {
    (o1 in orders && o2 in orders && orders[o1].status == Created && orders[o2].status == Created &&
     orders[o1].artwork == orders[o2].artwork) ==> o1 == o2
  }

  /** Every stored order went through `Order.save`. */
  ghost predicate TotalsConsistent(orders: map<OrderId, Order>)
  {
    forall o | o in orders :: TotalConsistent(orders[o])
  }

  /** Foreign key Order.artwork. */
  ghost predicate OrdersReferenceArtworks(artworks: map<ArtworkId, Artwork>, orders: map<OrderId, Order>)
  {
    forall o | o in orders :: orders[o].artwork in artworks
  }

  /** Foreign key Payment.order. */
  ghost predicate PaymentsReferenceOrders(payments: map<PaymentId, Payment>, orders: map<OrderId, Order>)
  {
    forall p | p in payments :: payments[p].order in orders
  }

  /** Payment.order is one-to-one. */
  ghost predicate OnePaymentPerOrder(payments: map<PaymentId, Payment>)
  {
    forall p1, p2 :: DistinctPayments(payments, p1, p2)
  }

  ghost predicate DistinctPayments(payments: map<PaymentId, Payment>, p1: PaymentId, p2: PaymentId)
  {
    p1 in payments && p2 in payments && payments[p1].order == payments[p2].order ==> p1 == p2
  }

  /** User.username and User.email are unique. */
  ghost predicate UniqueUserKeys(users: map<UserId, User>)
  {
    forall u1, u2 :: DistinctUserKeys(users, u1, u2)
  }

  ghost predicate DistinctUserKeys(users: map<UserId, User>, u1: UserId, u2: UserId)
  {
    u1 in users && u2 in users && u1 != u2 ==>
      users[u1].username != users[u2].username && users[u1].email != users[u2].email
  }

  function Usernames(users: map<UserId, User>): set<string>
  {
    set u | u in users :: users[u].username
  }

  predicate EmailInUse(users: map<UserId, User>, email: string)
  {
    exists u | u in users :: users[u].email == email
  }

  /** The payments deleted along with a set of orders: Payment.order is
      ON DELETE CASCADE. */
  function PaymentsOf(payments: map<PaymentId, Payment>, ids: set<OrderId>): set<PaymentId>
  {
    set p | p in payments && payments[p].order in ids
  }

  function WithoutPaymentsOf(payments: map<PaymentId, Payment>, ids: set<OrderId>): (r: map<PaymentId, Payment>)
    ensures r.Keys == payments.Keys - PaymentsOf(payments, ids)
    ensures forall p | p in r :: r[p] == payments[p] && r[p].order !in ids
  {
    map p | p in payments && payments[p].order !in ids :: payments[p]
  }

  /** Deleting the payments of one more order after those of `done` is the
      same as deleting the payments of `done` and that order at once. */
  lemma WithoutPaymentsOfStep(payments: map<PaymentId, Payment>, done: set<OrderId>, o: OrderId)
    ensures WithoutPaymentsOf(WithoutPaymentsOf(payments, done), {o}) == WithoutPaymentsOf(payments, done + {o})
  {
  }

  // ---------------------------------------------------------------------
  // Writes that keep the uniqueness constraints
  // ---------------------------------------------------------------------

  /** Deleting orders, or changing orders without putting a new line into a
      cart, keeps at most one cart line per artwork. */
  lemma CartLinesKeptBy(orders: map<OrderId, Order>, after: map<OrderId, Order>)
    requires UniqueCartLines(orders) && after.Keys <= orders.Keys
    requires forall o | o in after && after[o].status == Created ::
      orders[o].status == Created && after[o].artwork == orders[o].artwork
    ensures UniqueCartLines(after)
  {
    forall o1, o2
      ensures DistinctCartLines(after, o1, o2)
    {
      assert DistinctCartLines(orders, o1, o2);
    }
  }

  /** Deleting payments, or changing them without moving one to another
      order, keeps one payment per order. */
  lemma OnePaymentKeptBy(payments: map<PaymentId, Payment>, after: map<PaymentId, Payment>)
    requires OnePaymentPerOrder(payments) && after.Keys <= payments.Keys
    requires forall p | p in after :: after[p].order == payments[p].order
    ensures OnePaymentPerOrder(after)
  {
    forall p1, p2
      ensures DistinctPayments(after, p1, p2)
    {
      assert DistinctPayments(payments, p1, p2);
    }
  }

  /** Changing users without touching a username or an e-mail keeps both
      unique. */
  lemma UserKeysKeptBy(users: map<UserId, User>, after: map<UserId, User>)
    requires UniqueUserKeys(users) && after.Keys <= users.Keys
    requires forall u | u in after :: after[u].username == users[u].username && after[u].email == users[u].email
    ensures UniqueUserKeys(after)
  {
    forall u1, u2
      ensures DistinctUserKeys(after, u1, u2)
    {
      assert DistinctUserKeys(users, u1, u2);
    }
  }

  /** Inserting a user whose username and e-mail are both unused keeps them
      unique. */
  lemma UserKeysKeptByInsert(users: map<UserId, User>, id: UserId, u: User)
    requires UniqueUserKeys(users) && id !in users
    requires u.username !in Usernames(users) && !EmailInUse(users, u.email)
    ensures UniqueUserKeys(users[id := u])
  {
    var after := users[id := u];
    forall u1, u2
      ensures DistinctUserKeys(after, u1, u2)
    {
      if u1 in after && u2 in after && u1 != u2 {
        if u1 == id {
          assert users[u2].username in Usernames(users);
        } else if u2 == id {
          assert users[u1].username in Usernames(users);
        } else {
          assert DistinctUserKeys(users, u1, u2);
        }
      }
    }
  }
}
