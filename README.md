# Art gallery marketplace: a Dafny model of its core

This project models the business core of a Django art-gallery marketplace. Sellers list artworks, and buyers put them in a cart and check out. The pieces modelled are:

- the age-based discount on a listing;
- the cart and checkout views;
- the periodic sweeps that archive old listings and drop stale carts;
- the social-login pipeline that creates users;
- the profile and registration form validators;
- the bulk actions of the admin site.

The database is one class, `Db.Store`. It holds one map per table (users, artworks, orders, payments, verifications), keyed by primary key. Its `Valid()` predicate holds the constraints the schema enforces:

- user e-mails and usernames are unique;
- every order refers to an artwork;
- at most one Created order exists per artwork (`unique_artwork_in_cart`);
- every stored total equals price plus shipping plus insurance;
- every payment refers to an order;
- an order has at most one payment.

Operations that write rows one at a time become methods on the store with `modifies` clauses and loops. Each method is proved against a function of the old tables. Bulk `update()` and `delete()` calls become a single reassignment of a table. Property getters, validators and predicates become functions.

The wall clock (`timezone.now()`) is the `now` parameter, in whole seconds. The current year and today's date are parameters too. The logged-in user is a `requester` or `actor` parameter. Money is a mathematical real, because Python's `Decimal` is exact for these operations.

Modules:

- `Base`: identifiers, money, time, and `DaysBetween`, which gives the day count of a `timedelta`.
- `Models`: entities, pricing, and the row-level rules of `models.py`.
- `Db`: the store.
- `Views`, `Tasks`, `Pipeline`, `Forms` and `AdminActions`: one module each for `views.py`, `tasks.py`, `pipeline.py`, `forms.py` and `admin.py`.

## Model

| member | source | states |
|---|---|---|
| `Base.DaysBetween` | gallery/main/models.py:299 | `(now - t).days` is the floor of the span in days: `d` whole days fit and `d + 1` do not |
| `Base.DaysExceed` | gallery/main/models.py:299-300 | more than k whole days have passed exactly when the span reaches k + 1 full days |
| `Models.DiscountPercentage` | gallery/main/models.py:315-326 | the fraction is 0, 0.1, 0.2 or 0.3; each tier is pinned on elapsed time: 0.1 exactly from 31 to under 91 full days, 0.2 exactly from 91 to under 181, 0.3 exactly from 181, and 0 for an undated or younger listing |
| `Models.DiscountedPrice` | gallery/main/models.py:302-313 | the discounted price is the list price times (1 - discount_percentage): the two tier chains agree |
| `Models.HasDiscount` | gallery/main/models.py:295-300 | `has_discount` holds exactly when `discount_percentage` is positive |
| `Models.DiscountStatus` | gallery/main/models.py:340-350 | the label says "no discount" exactly when `has_discount` is false; otherwise it names the same percentage as `discount_percentage` |
| `Models.CalculateDiscountPrice` | gallery/main/models.py:352-362 | the second copy of the tier chain returns the same price as `discounted_price` for every artwork and time |
| `Models.DiscountTiers` | gallery/main/models.py:302-313 | the price multipliers by listing age: 0.7 from 181 days, 0.8 from 91 days, 0.9 from 31 days, and the list price below 31 days |
| `Models.DiscountNeverRaisesPrice` | gallery/main/models.py:302-313 | a non-negative price is never raised; a positive price is kept exactly when the listing is undated or under 31 days old |
| `Models.HundredDayOldArtwork` | gallery/main/models.py:302-350 | a 1000 listing that is 100 days old costs 800, has a discount and is labelled 20% |
| `Models.SaveOrder` | gallery/main/models.py:455-461 | `Order.save` leaves a total equal to price + shipping + insurance and changes no other field |
| `Models.SaveOrderKeepsConsistent` | gallery/main/models.py:455-461 | saving an order whose total already agrees changes nothing |
| `Models.PaymentExpired` | gallery/main/models.py:470-471 | expired exactly when at least 172801 seconds (48 hours and one second) have passed since the order was created |
| `Models.PaymentExpiryBoundary` | gallery/main/models.py:470-471 | the 48-hour window is strict: exactly 48 hours is not expired, one second more is, and expiry is never undone by later time |
| `Models.CompletePayment` | gallery/main/models.py:526-529 | the payment becomes completed at `now`; its order, amount and creation time are unchanged |
| `Models.CompletePaymentAgain` | gallery/main/models.py:526-529 | completing a payment twice equals completing it once at the later time; only `completed_at` differs |
| `Models.VerificationAge` | gallery/main/models.py:682-685 | there is an age exactly when the verification has a `verified_at`; the age is `(now - verified_at).days`, the number of whole days elapsed (floor bounds in seconds) |
| `Models.IsVerificationActive` | gallery/main/models.py:687-689 | active exactly when verified less than 365 full days ago, whatever the status |
| `Models.ArtistAge` | gallery/main/models.py:140-146 | an age exists exactly when a birth date does; the age n is the number of birthdays passed (the n-th anniversary is not after today and the (n+1)-th is) |
| `Models.IsAlive` | gallery/main/models.py:148-150 | definition: alive exactly when there is no death date |
| `Models.ValidateYear` | gallery/main/models.py:13-15 | definition: a year is accepted exactly when 1000 <= year <= the current year; otherwise the error is IncorrectYear |
| `Models.CleanArtwork` | gallery/main/models.py:364-369 | an unsaved artwork passes; a saved one is rejected exactly when it is active and some Created order holds it |
| `Models.WithoutPaymentsOf` | gallery/main/models.py:488-493 | deleting orders removes exactly the payments that refer to them, by cascade, and keeps every other payment unchanged |
| `Models.CartLinesKeptBy` | gallery/main/models.py:444-450 | a write that removes rows and never creates or re-points a Created order keeps `unique_artwork_in_cart` |
| `Models.OnePaymentKeptBy` | gallery/main/models.py:488-493 | a write that removes payments or keeps their order keeps at most one payment per order |
| `Models.UserKeysKeptBy` | gallery/main/models.py:56-57 | a write that keeps every username and e-mail keeps them unique |
| `Models.UserKeysKeptByInsert` | gallery/main/models.py:56-57 | inserting a user with a fresh key, a free username and an unused e-mail keeps both unique |
| `Db.Store.CompleteOrder` | gallery/main/models.py:463-468 | `complete_order`: the order becomes paid with its total re-saved, its artwork becomes sold, nothing else changes, and the constraints still hold |
| `Db.Store.MarkPaymentCompleted` | gallery/main/models.py:526-529 | `mark_as_completed` on one payment writes `CompletePayment` into that row only |
| `Db.Store.DeleteOrder` | gallery/main/models.py:488-493 | deleting an order removes it and its payment, and reports 1 plus the number of cascaded payments |
| `Views.IsAdmin` | gallery/main/views.py:25-35 | definition: an authenticated user with the staff flag or the superuser flag |
| `Views.AdminAccessIgnoresRole` | gallery/main/views.py:25-35 | `is_admin` admits a user exactly when they are staff or superuser, so a superuser without the staff flag is admitted; the `role` field plays no part (an Admin role without the flags is refused); anonymous visitors are refused |
| `Views.CartLine` | gallery/main/views.py:278-283 | the new cart order has the requester as buyer, the artwork, the given price, status Created, and a total equal to its price |
| `Views.AddToCartKeepsOneCartLine` | gallery/main/views.py:254-288 | after a successful add the artwork is in a cart, `unique_artwork_in_cart` still holds, and any later add of that artwork by anyone is refused |
| `Views.AlreadyInCartMatchesClean` | gallery/main/views.py:266-268 | for an active artwork offered to a non-seller, the "already in a cart" refusal is exactly the case `Artwork.clean` rejects |
| `Views.AddToCart` | gallery/main/views.py:242-288 | refuses a missing or inactive artwork, the requester's own artwork, and an artwork already in a cart, in that order, changing nothing; otherwise inserts one Created order priced at the discounted price, under a fresh key |
| `Views.Cart` | gallery/main/views.py:316-319 | definition: the cart is exactly the requester's Created orders |
| `Views.PriceSumRemove` | gallery/main/views.py:321 | the sum of prices over a set of lines does not depend on the order in which they are added |
| `Views.SumPrices` | gallery/main/views.py:321 | the loop returns the sum of prices over the given lines |
| `Views.CartView` | gallery/main/views.py:305-327 | the page shows the requester's Created orders and the sum of their prices |
| `Views.RemoveFromCart` | gallery/main/views.py:329-344 | the order is deleted, with its payment, exactly when it belongs to the requester, in any status; otherwise nothing changes |
| `Views.Checkout` | gallery/main/views.py:346-368 | redirects to the cart exactly when some line of the requester's cart has an artwork that is not active |
| `Views.CollectUnavailable` | gallery/main/views.py:386-390 | collects exactly the cart lines whose artwork is not active |
| `Views.DeleteLines` | gallery/main/views.py:392-397 | deleting each line removes exactly those orders and their payments, and keeps the constraints |
| `Views.CompleteLines` | gallery/main/views.py:412-416 | `complete_order` on each line leaves every line paid and every line's artwork sold, and keeps the constraints |
| `Views.CheckoutView` | gallery/main/views.py:370-425 | in the source's order: unavailable lines are deleted and nothing else happens; an empty cart, a total under 15000, or a GET change nothing; a POST pays every line and sells every artwork |
| `Tasks.DeactivateOldArtworks` | gallery/main/tasks.py:10-18 | archives the active artworks listed at least 30 days ago, reports their number, and touches no other table |
| `Tasks.ArchiveChangesExactlyStale` | gallery/main/tasks.py:12-17 | an artwork changes exactly when it is active and at least 30 days old; it changes only in its status, which becomes archived |
| `Tasks.ArchiveCountIsChangedRows` | gallery/main/tasks.py:17 | the reported count is the number of rows whose value changed |
| `Tasks.DeactivateTwiceArchivesNothing` | gallery/main/tasks.py:10-18 | a second sweep with the same clock finds nothing and changes nothing |
| `Tasks.StaleGrowsWithTime` | gallery/main/tasks.py:12-16 | a later sweep selects at least the artworks an earlier one would |
| `Tasks.ThirtyOneAndTwentyNineDays` | gallery/main/tasks.py:10-18 | of a 31-day-old and a 29-day-old listing only the first is archived, and the count is one |
| `Tasks.NoDiscountSurvivesSweep` | gallery/main/tasks.py:12-16 | after the sweep no active artwork carries a discount: archiving starts at 30 days and the first tier at 31 |
| `Tasks.CleanupExpiredCarts` | gallery/main/tasks.py:42-50 | deletes the Created orders at least 7 days old, with their payments; the count is both kinds of row together, as `delete()[0]` reports it |
| `Tasks.CleanupSparesNonCartOrders` | gallery/main/tasks.py:44-48 | an order survives exactly when it is not Created or is younger than 7 days |
| `Tasks.ExpiredCartPaymentExpired` | gallery/main/tasks.py:44-48 | an expired cart is also past its 48-hour payment window |
| `Tasks.CleanupCountIsOrdersWithoutPayments` | gallery/main/tasks.py:49 | the count equals the number of deleted orders exactly when none of them had a payment |
| `Tasks.CleanupTwiceDeletesNothing` | gallery/main/tasks.py:42-50 | a second cleanup with the same clock deletes nothing |
| `Pipeline.FallbackEmail` | gallery/main/pipeline.py:8-15 | a missing or empty e-mail becomes `<social_id>@yandex-social.ru`; any other e-mail is kept |
| `Pipeline.LocalPart` | gallery/main/pipeline.py:18 | `split('@')[0]` is the longest prefix without '@': an '@' follows it, unless it is the whole string |
| `Pipeline.FallbackLocalPartIsSocialId` | gallery/main/pipeline.py:14-18 | the username base of a fallback address is the social id itself |
| `Pipeline.NatToDecimalInjective` | gallery/main/pipeline.py:23 | different counters print as different decimal strings |
| `Pipeline.Candidate` | gallery/main/pipeline.py:19-24 | every username tried extends the base, and only the first try is the base itself |
| `Pipeline.CandidateInjective` | gallery/main/pipeline.py:19-24 | different attempts try different usernames |
| `Pipeline.UniqueUsername` | gallery/main/pipeline.py:18-24 | the loop ends on the first untaken candidate `base`, `base_1`, `base_2`, ...; every earlier candidate is taken |
| `Pipeline.NewSocialUser` | gallery/main/pipeline.py:27-35 | the created user is an active buyer without staff flags, with the given e-mail, username, names and social id |
| `Pipeline.CreateUser` | gallery/main/pipeline.py:3-40 | an existing user creates nothing; otherwise one active buyer is inserted under a fresh key with the fallback e-mail and the first free username; the insert fails on a taken e-mail, and then nothing changes |
| `Pipeline.Registered` | gallery/main/pipeline.py:58-62 | only the names and the role change, to the provider's names and Buyer |
| `Pipeline.RegisterAfterCreateIsNoOp` | gallery/main/pipeline.py:27-35 | on a user `create_user` has just built from the same details, `register_via_social` changes nothing |
| `Pipeline.RegisterViaSocial` | gallery/main/pipeline.py:48-69 | nothing happens unless this is a registration with a user; otherwise that user's names and role are saved and the user is returned |
| `Forms.AllNameChars` | gallery/main/forms.py:90 | true exactly when every character is in the name class |
| `Forms.NameRegexIsAllNameChars` | gallery/main/forms.py:90 | the name pattern, with `$` also matching before a final newline, accepts exactly the non-empty strings of name characters |
| `Forms.CleanFirstName` | gallery/main/forms.py:86-93 | accepted, unchanged, exactly when non-empty and made of Latin or Cyrillic letters, whitespace and hyphens |
| `Forms.CleanLastName` | gallery/main/forms.py:95-102 | the same rule for the last name, with its own error |
| `Forms.NameExamples` | gallery/main/forms.py:86-102 | "Анна-Мария" passes; "Smith2" and the empty name fail |
| `Forms.IndexOf` | gallery/main/forms.py:81 | finds the first occurrence of a character, or reports that there is none |
| `Forms.AllChars` | gallery/main/forms.py:81 | true exactly when every character in the range is in the class |
| `Forms.EmailBodyOkIffMatches` | gallery/main/forms.py:81 | splitting at the first '@' and the first '.' after it agrees with the e-mail pattern in both directions |
| `Forms.EmailFormatOk` | gallery/main/forms.py:81 | the format test accepts exactly what `re.match` with the pattern accepts |
| `Forms.AcceptedEmailHasOneAt` | gallery/main/forms.py:81 | every accepted address has exactly one '@' |
| `Forms.CleanEmail` | gallery/main/forms.py:73-84 | uniqueness is tested before format; the e-mail is returned unchanged exactly when no other user has it and the pattern accepts it |
| `Forms.KeepingOwnEmailIsNotDuplicate` | gallery/main/forms.py:77 | a user who keeps their own address is not refused as a duplicate |
| `Forms.EmailAcceptedExample` | gallery/main/forms.py:81 | "a.b+c@x-y.ru" passes |
| `Forms.EmailWithoutDotRejected` | gallery/main/forms.py:81 | "ab@cd" fails |
| `Forms.EmailWithTwoAtsRejected` | gallery/main/forms.py:81 | "a@b@c.d" fails |
| `Forms.CleanRegistrationRole` | gallery/main/forms.py:57-60 | definition: a role is accepted, unchanged, exactly when the form offers it |
| `Forms.RegistrationCannotGrantStaffRoles` | gallery/main/forms.py:57-60 | self-registration yields only Buyer or Seller, never Moderator or Admin |
| `AdminActions.DiscountOne` | gallery/main/admin.py:152-155 | one iteration reprices the artwork exactly when it has a key and a discount, and reports whether it did |
| `AdminActions.ApplyDiscount` | gallery/main/admin.py:148-160 | each selected eligible artwork gets `calculate_discount_price`, and nothing else changes; the count is the number of eligible artworks; the warning is given exactly when that count is zero |
| `AdminActions.ApplyDiscountChangesOnlyEligible` | gallery/main/admin.py:148-155 | only the price of an eligible artwork changes, to the discounted price, and a non-negative price never goes up |
| `AdminActions.ApplyDiscountTwiceCompounds` | gallery/main/admin.py:148-155 | the action is not idempotent: a second run applies the same percentage again to the reduced price |
| `AdminActions.SetArtworkStatus` | gallery/main/admin.py:144 | exactly the selected artworks get the new status and nothing else about them changes |
| `AdminActions.SetOrderStatus` | gallery/main/admin.py:184 | exactly the selected orders get the new status and nothing else about them changes |
| `AdminActions.MarkAsSold` | gallery/main/admin.py:143-145 | every selected artwork becomes sold; the count is the number of selected rows |
| `AdminActions.SetOrderStatusKeepsInvariants` | gallery/main/admin.py:183-191 | a bulk status update that moves no order into Created keeps the one-cart-line rule and the totals |
| `AdminActions.MarkAsPaid` | gallery/main/admin.py:183-186 | every selected order becomes paid, whatever its status, and its artwork is untouched |
| `AdminActions.MarkAsDelivered` | gallery/main/admin.py:188-191 | every selected order becomes delivered |
| `AdminActions.OrderStatusActionsOverwrite` | gallery/main/admin.py:183-191 | there is no forward-only rule: a delivered order can be moved back to paid |
| `AdminActions.MarkAsPaidFreesArtwork` | gallery/main/admin.py:183-186 | marking a cart line paid takes its artwork out of every cart (the action leaves the artwork itself untouched, per `MarkAsPaid`) |
| `AdminActions.MarkPaymentsCompleted` | gallery/main/admin.py:205-208 | each selected payment is completed at `now`; the count is the size of the selection |
| `AdminActions.MarkPaymentsCompletedTwice` | gallery/main/admin.py:205-208 | running the action twice equals running it once at the later time |
| `AdminActions.Verify` | gallery/main/admin.py:257-261 | the verification becomes verified by the acting user at `now` |
| `AdminActions.VerifyUsersAsWritten` | gallery/main/admin.py:256-263 | as written the action fails exactly when the selection holds a row, and then nothing is saved |
| `AdminActions.VerifyUsers` | gallery/main/admin.py:256-263 | as intended: each selected verification is verified by the actor at `now`; the count is the selection size |
| `AdminActions.VerifiedIsActiveForAYear` | gallery/main/admin.py:256-263 | a user just verified is active from then on and for exactly 365 days |
| `AdminActions.VerifyUsersCounterexample` | gallery/main/admin.py:260 | one pending verification: as written the action fails, and as intended the user is verified and active |
| `AdminActions.RejectVerifications` | gallery/main/admin.py:265-267 | the selected verifications become rejected; the count is the number of selected rows |
| `AdminActions.RejectedVerificationStaysActive` | gallery/main/admin.py:265-267 | rejection changes only the status, so a recently verified user who is then rejected still counts as active |

## Left out

- Money is exact. The two-decimal rounding of the `DecimalField` columns on save is not modelled.
- `Order.save` turns a missing or zero price component into 0. In the store every component is a number, so the None case is not modelled.
- Reviews are not modelled, so the rows they cascade on order deletion are missing from the count. The Review `OneToOneField` on an order is `CASCADE`.
- Tasks.CleanupExpiredCarts: the count it states leaves out cascaded reviews, which `delete()[0]` would include.
- Db.Store.DeleteOrder: the same; its count leaves out a cascaded review.
- `check_unverified_sellers`, `User.update_rating` and `Review.save` are not part of this model.
- The messages and redirect targets of the views and admin actions are not modelled. Outcome values stand for them. Localised strings are not modelled either.
- Authentication, permission decorators, the REST API views, the templates and the seed scripts are not part of this model.
- Concurrency is not modelled. Two requests racing past the "already in a cart" check would reach the database constraint, whose `IntegrityError` the view catches. In the sequential model the check always runs first, so that path cannot occur.
- Field lengths (`max_length`) are not modelled.
- Django's own `EmailField` validation and whitespace stripping run before `clean_email`. They are not modelled: `clean_email` and the name validators take the value as given.
- E-mail uniqueness is exact string equality. Database collation is not modelled.
- `timezone.now()`, today's date and the current year are parameters.
- The social id is the text `str()` gives for it. A missing id prints as "None".
- `deactivate_old_artworks` and `cleanup_expired_carts` return formatted strings. The model returns the count those strings contain.
- The `artwork.pk` test of `apply_discount` is modelled as "the key is not 0". Stored rows always have a positive key, so in practice it never excludes a row.

## Findings

| source | as written | input that shows it | evidently intended | confidence | as-written member | corrected member |
|---|---|---|---|---|---|---|
| gallery/main/admin.py:256-263 | `verify_users` calls `timezone.now()`, but the admin module never imports `timezone`, so the first selected row raises NameError before it is saved | a selection holding one pending verification | each selected verification is marked verified by the acting user at the current time and saved | not executed | `AdminActions.VerifyUsersAsWritten`, `AdminActions.VerifyUsersCounterexample` | `AdminActions.VerifyUsers` |
