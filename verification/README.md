# Hotel booking platform: a verified model

A Dafny model of the hotel management platform's stateful cores, with the properties its
code is there to keep. Requests, batch tasks and input events are steps; the properties are
about every input, every run and every reachable state.

## What is modelled

**Booking engine** (`Domain`, `Pricing`, `Availability`, `AvailabilityCache`, `Engine`, `Backend`).
The tables hold rooms, bookings, payments, blackout dates and pricing rules; beside them stands
the timed availability cache. `Engine.Step` says what one request or task does to all of it.
`Backend.Server` carries the requests out in place, on fields and on a shared `Cache` object, and
each of its methods is proved to be exactly one engine step. Five theories run over the steps:

- `NoDoubleBooking`: no room-night is sold twice. The status override has no guard against reviving a
  cancelled booking, so the claim needs one; the guard is shown to be exact, with a four-request run
  that breaks the claim without it.
- `Coherence`: when a cached search answer is the current answer. The five invalidated keys reach
  every window that shares a night with a stay exactly when the two lengths sum to at most three
  nights; runs beyond that bound have stale answers. Windows without nights, which searches may ask for, have
  a bound of their own.
- `Staleness`: with windows of any length and all requests allowed, how old a cached answer can be.
- `Effects`: what single requests take from searches and give back.
- `Lifecycle`: statuses move along the life cycle, bookings are confirmed only when paid, money is
  conserved.

`Occupancy` bounds the occupancy report by counting distinct room-nights (`Counting`).

**Rate limiter** (`TokenBucket`, `BucketTraces`, `RejectedCalls`, `BucketStore`). The refill-and-consume
script, its keyed store with expiry, and what whole traces can get: the exact admission condition, invisible
expiry, rejected calls without effect, a bound under clocks that step back. Tokens grow by the callers'
clocks and buckets expire by the server's, so these claims need each bucket that expires to have been full by
then; the condition is shown to be exact, and the deployed configurations meet it up to 59 minutes of drift.

**WebSocket fan-out** (`Registry`, `Fanout`). One replica's registry with its delivery loops in place, and
the protocol of many replicas over one channel: a log with one cursor per replica, sockets that come,
go and die. `joined` in `Fanout.Sys` is a history record; no delivery reads it.

**Phone input** (`Phone`, `PhoneInput`, `Countries`), **design canvas** (`Reorder`, `Viewport`), **guest arithmetic**
(`GuestScore`), **token revocation** (`Revocation`).

## Conventions

- Dates are day numbers and money, time and rates are reals. Clock readings, gateway answers and failing
  sockets are parameters.
- Bookings and payments are appended and never deleted, so a row's id is its position. A payment's
  source status `pending` is called `Unsettled`, because bookings have a `Pending` too.
- A search answer is a set of room ids: the queries have no order.
- A cache key is the triple that its text spells out.
- Header text is Latin-1, whose blanks are the ones trimmed from an address.
- Where a claim fails for the code, the code is kept, one lemma gives an input or run on which it fails, and
  another says exactly when it holds:
  - no double booking under the status override: `NoDoubleBooking.RevivalCounterexample`, `NoDoubleBooking.OverrideSafeIff`;
  - confirmed only when paid, under the status override: `Lifecycle.UnpaidOverride`, `Lifecycle.OverridePaidIff`;
  - cached answers are current: `Coherence.StaleRun`, `Coherence.ThreeNightsIsExact`;
  - the availability query is the per-night model, for windows without nights: `Availability.EmptyWindowLosesRoom`,
    `Availability.WindowWithoutNights`;
  - expiry is invisible, and no more passes than the forward jumps pay for: `BucketTraces.ServerClockAhead`,
    `BucketTraces.PaidIsExact`;
  - each pair of address and path has a bucket of its own, as the limiter's introduction says:
    `TokenBucket.KeyCollision`, `BucketStore.BucketIsOwnIff`;
  - the country of a number survives the parent's echo: `Countries.CanadaBecomesUnitedStates`,
    `PhoneInput.EchoKeepsWhatWasEmitted`;
  - every drop is shown: `Reorder.BarHidesDrop`, `Reorder.DropShowsIff`;
  - the section shows the artboards that are there: `Reorder.BarHidesSource`, `Reorder.ChangeShowsMergeIff`.
- The comment on the cache invalidation calls its keys the "surrounding window (±1 day overlap)"; the
  code moves one end of the window at a time, and the model follows the code.

## Model

| member | source | states |
|---|---|---|
| `Pricing.CalculateBookingPrice` | backend/app/services/pricing.py:10-40 | the per-night loop returns the sum, over the nights of the stay, of the price of each night |
| `Pricing.NightInNumbers` | backend/app/services/pricing.py:20-40 | a night costs the fixed price of its rule, else the base price times the rule's multiplier, else the base price, a missing base price being 0; its rule is the one of this hotel and room type whose inclusive dates hold the night, of highest priority, then id |
| `Pricing.NightWithoutRule` | backend/app/services/pricing.py:20-30 | a night no rule's dates hold costs the base price |
| `Pricing.QueryIsRankedFilter` | backend/app/repositories/pricing_repository.py:17-34 | the rule query returns exactly the matching rows, in strictly descending (priority, id) |
| `Pricing.NightPriceIsWinners` | backend/app/services/pricing.py:20-35 | a stored rule sets a night's price iff it covers the night and outranks every other covering rule; no covering rule means the base price |
| `Pricing.TotalIsAdditive` | backend/app/services/pricing.py:20-40 | splitting a stay at any day splits its price |
| `Pricing.StorageOrderIsIrrelevant` | backend/app/repositories/pricing_repository.py:24-34 | two tables with the same rows in any storage order price every stay alike |
| `Pricing.OneRuleChange` | backend/app/services/pricing.py:20-40 | adding or deleting one rule moves the price of a stay by exactly the nights that rule covers and wins |
| `Pricing.BeatenRuleIsRemovable` | backend/app/services/pricing.py:30-35 | a rule outranked on every night it covers can be deleted without changing the price of any stay |
| `Pricing.WinningRuleIsNot` | backend/app/services/pricing.py:30-35 | a rule changes the price of one night iff it wins that night at another price |
| `Pricing.RuleTable.CreateRule` | backend/app/repositories/pricing_repository.py:9-14 | appends one row under a new id; every price moves by the nights the row wins |
| `Pricing.RuleTable.DeleteRule` | backend/app/repositories/pricing_repository.py:46-60 | returns whether the rule exists in this hotel, and deletes that row and no other |
| `Availability.AvailableIffBookable` | backend/app/services/availability.py:41-84 | for a stay of at least one night, the query returns a room iff it is active, belongs to the hotel, and no night of the stay is booked or blacked out |
| `Availability.QueryInRows` | backend/app/services/availability.py:41-84 | on every window: a room is returned iff it is active, of the hotel, every pending, confirmed or completed booking of it ends by the start or begins from the end on, and no blackout of it or of the hotel falls inside |
| `Availability.BlackoutCheckIsPerNight` | backend/app/services/availability.py:19-32 | the blackout check holds iff some night of the window is blacked out, and iff the availability query sees a hotel-wide or room blackout |
| `Availability.WindowWithoutNights` | backend/app/services/availability.py:54-61 | exactly what the query answers for a window without nights: a stay that spans it still takes the room |
| `Availability.EmptyWindowLosesRoom` | backend/app/services/availability.py:54-61 | a stay and an empty window inside it: every night asked for is free, and the query drops the room |
| `Availability.AvailabilitySplits` | backend/app/services/availability.py:41-84 | availability on [a,c) is availability on both [a,b) and [b,c), empty parts included |
| `Availability.CancelledRowIsInvisible` | backend/app/services/availability.py:54-61 | a cancelled row changes no answer on any window |
| `AvailabilityCache.InvalidationReach` | backend/app/services/cache.py:100-108 | every window of m nights that shares a night with a stay of n nights is invalidated iff n + m is at most 3 |
| `AvailabilityCache.ShortWindowsAreInvalidated` | backend/app/services/cache.py:104-108 | a window that shares a night with the stay is among the five keys when the lengths sum to at most 3 |
| `AvailabilityCache.KeysWithinADay` | backend/app/services/cache.py:104-108 | the invalidated keys are the windows of the hotel that keep one end of the stay and move the other by at most a day |
| `AvailabilityCache.Cache.SetCachedAvailability` | backend/app/services/cache.py:86-95 | the ids are served for 300 seconds and not after; no other entry changes |
| `AvailabilityCache.Cache.InvalidateAvailability` | backend/app/services/cache.py:100-108 | deletes exactly five keys; what survives and shares a night with the stay is more than three nights with it |
| `NoDoubleBooking.CreateKeepsSound` | backend/app/api/v1/user/bookings.py:33-62 | an accepted booking keeps: stays of at least one night, each booking in its room's hotel, no night sold twice |
| `NoDoubleBooking.OverrideSafeIff` | backend/app/api/v1/admin/bookings.py:111-125 | after a status override no night is sold twice iff it did not revive a booking whose room the availability query counts as booked in its dates |
| `NoDoubleBooking.StepKeepsSound` | backend/app/repositories/room_repository.py:31-52 | every request, an override only if it passes that guard, keeps the booking table sound; rooms never change hotel |
| `NoDoubleBooking.StepKeepsProperStays` | backend/app/schemas/booking.py:14-18 | every request, guarded or not, keeps all stays at one night or more |
| `NoDoubleBooking.NeverDoubleBooked` | backend/app/api/v1/user/bookings.py:39-62 | in every state of every run whose overrides pass that guard, for any cache contents, no room-night is sold twice |
| `NoDoubleBooking.UnsafeOverrideSellsTwice` | backend/app/api/v1/admin/bookings.py:119-125 | the first override of a run that fails the guard does sell a night twice |
| `NoDoubleBooking.RevivalCounterexample` | backend/app/api/v1/admin/bookings.py:119-125 | a four-request run in which reviving a cancelled booking sells a night twice |
| `NoDoubleBooking.CacheNeverReachesTables` | backend/app/api/v1/user/bookings.py:39-62 | the tables after a run do not depend on what the cache or the clock held at its start |
| `Coherence.CreateThenCancelRestores` | backend/app/api/v1/user/bookings.py:94-112 | creating a booking and cancelling it gives every window of every hotel its old answer back |
| `Coherence.StepKeepsCoherent` | backend/app/api/v1/public/search.py:139-151 | a step that does not disturb a window keeps its cached entry equal to a fresh query |
| `Coherence.UndisturbedWindowIsFresh` | backend/app/api/v1/public/search.py:139-151 | in any run, a window no step disturbed is answered as a fresh query would answer it |
| `Coherence.ShortStaysServeFresh` | backend/app/tasks/batch_tasks.py:82-87 | in any run of create, cancel, pay, refund, check-in, deactivation, pricing, search, warm-up and expiry, every search answers what the tables say when its window plus the longest stay come to at most three nights, or to at most one if the window has no nights |
| `Coherence.ThreeNightsIsExact` | backend/app/services/cache.py:104-108 | for windows of every length, none included: all such runs answer all such windows correctly iff stay length plus window length is within that bound |
| `Coherence.StaleRun` | backend/app/services/cache.py:104-108 | a window that a stay blocks and does not invalidate: a search followed by the booking is answered with the room that was just sold |
| `Coherence.OverrideLeavesStale` | backend/app/api/v1/admin/bookings.py:119-125 | cancelling through the status override leaves a stale cached answer |
| `Staleness.EntryHasOrigin` | backend/app/services/cache.py:86-95 | every cached entry was computed at some state of the run and expires 300 seconds after it; no later booking change invalidated its key |
| `Staleness.CachedAnswerIsRecent` | backend/app/api/v1/public/search.py:140-151 | for windows of any length and runs of any requests: a cache-served answer is the query's answer at a state less than 300 s ago, restricted to rooms active now, and no booking change since then invalidated the key |
| `Effects.BookingTakesNights` | backend/app/api/v1/user/bookings.py:33-62 | an accepted booking takes its room out of the windows of its hotel that share a night with it, and changes no other answer |
| `Effects.CancelFreesNights` | backend/app/api/v1/user/bookings.py:104-112 | a booking its guest cancels stands at cancelled whatever its status was; a night of it that no other live booking covers is free |
| `Effects.CancelOffersAgain` | backend/app/api/v1/user/bookings.py:104-112 | after that its room is offered for a window iff nothing else blocks it there |
| `Effects.BookedWindowIsFresh` | backend/app/api/v1/user/bookings.py:62-62 | right after a booking, of any length, a search of that very window, or with one end a day off, answers what the tables say |
| `Effects.CancelledWindowIsFresh` | backend/app/api/v1/user/bookings.py:111-111 | the same right after a cancellation |
| `Effects.InactiveIsNeverAnswered` | backend/app/api/v1/public/search.py:142-148 | a deactivated room is answered by no search, cached or not; reactivated, everything is as before |
| `Effects.UpdateSetsWhatItNames` | backend/app/repositories/room_repository.py:31-52 | an update sets the fields it names, keeps the others and all other rooms, and never the hotel |
| `Effects.BlackoutTakesNight` | backend/app/services/availability.py:41-84 | a new blackout takes its room, or the whole hotel, out of the windows that hold its date and out of no other; deleting it restores everything |
| `Effects.NewRoomIsOffered` | backend/app/repositories/room_repository.py:8-13 | a new room is offered from then on iff it is active and not blacked out; no other answer changes |
| `Effects.NewRulesPriceNextBooking` | backend/app/api/v1/user/bookings.py:43-48 | the next booking is priced by the rules as they stand then |
| `Effects.EntriesAgeOut` | backend/app/services/cache.py:86-95 | five minutes after a search filled the cache, the search answers what the tables say |
| `Lifecycle.StepMoves` | backend/app/services/payment.py:40-69 | every request but the override moves bookings pending→confirmed→completed or to cancelled, payments only succeeded→refunded; new payments end succeeded or failed; nothing else of a stored row changes |
| `Lifecycle.FinalIsFinal` | backend/app/api/v1/admin/bookings.py:77-79 | over any run without overrides, cancelled bookings and failed or refunded payments never change status, and what was booked, when and at what price never changes |
| `Lifecycle.ConfirmedWasPaid` | backend/app/services/payment.py:65-68 | over every run whose overrides confirm only paid bookings, a booking is confirmed or completed only if one of its payments reached succeeded |
| `Lifecycle.OverridePaidIff` | backend/app/api/v1/admin/bookings.py:119-125 | an override keeps that property iff it leaves the booking unconfirmed or the booking was paid |
| `Lifecycle.UnpaidOverride` | backend/app/api/v1/admin/bookings.py:119-125 | a two-request run after which a booking is confirmed and unpaid |
| `Lifecycle.MoneyIsConserved` | backend/app/services/payment.py:49-67 | for one booking or any set of them, money captured over a run equals succeeded plus refunded payments, and refunded payments equal the money given back |
| `Occupancy.SoldCount` | backend/app/api/v1/admin/reports.py:63-73 | the nights of the live bookings, clipped to a window and summed, are the number of distinct room-nights they cover |
| `Occupancy.ClippedNightsFit` | backend/app/api/v1/admin/reports.py:63-73 | nights clipped to any window are at most rooms × window length |
| `Occupancy.ReportedNightsFit` | backend/app/api/v1/admin/reports.py:63-73 | the report's sum of nights is at most rooms × (days + longest counted stay) |
| `Occupancy.RateIsBounded` | backend/app/api/v1/admin/reports.py:40-74 | in every state a safe run reaches with all rooms active, the reported rate is at most 100 × (1 + longest counted stay / days), rounded alike |
| `Occupancy.BoundIsAttained` | backend/app/api/v1/admin/reports.py:61-74 | for every range and longest stay a safe run from empty bookings makes the reported rate reach the bound |
| `Occupancy.PaymentRaisesReport` | backend/app/api/v1/admin/reports.py:63-73 | a captured payment of a pending booking that starts in the range, ends included, raises the reported nights by exactly its nights; no other payment does |
| `Occupancy.CheckInKeepsReport` | backend/app/api/v1/admin/reports.py:66-66 | checking a guest in changes no figure, for any range and scope |
| `Occupancy.CancellationLowersReport` | backend/app/api/v1/admin/reports.py:66-66 | a cancellation takes the nights of a confirmed or completed booking out again |
| `Occupancy.BookingKeepsReport` | backend/app/api/v1/admin/reports.py:66-66 | a new, pending booking is not counted |
| `Occupancy.RateInNights` | backend/app/api/v1/admin/reports.py:74-74 | rate × active rooms × days = 100 × nights, and the reported rate is within half a hundredth of it |
| `Occupancy.NewRoomCounts` | backend/app/api/v1/admin/reports.py:40-46 | a new room raises the room count by one iff it is active and in scope; the count is at least one |
| `Backend.Server.CreateBooking` | backend/app/api/v1/user/bookings.py:22-63 | one engine step; succeeds iff every night of the stay is free in an active room, with the error for each other case, at the price of the nights; keeps a sound table sound |
| `Backend.Server.CancelBooking` | backend/app/api/v1/user/bookings.py:94-112 | one engine step; succeeds iff the booking exists and is the guest's own |
| `Backend.Server.CheckInBooking` | backend/app/api/v1/admin/bookings.py:64-81 | one engine step; succeeds iff the booking is in scope and confirmed |
| `Backend.Server.UpdateBooking` | backend/app/api/v1/admin/bookings.py:111-125 | one engine step: the unguarded override |
| `Backend.Server.UpdateBookingStatus` | backend/app/repositories/booking_repository.py:32-51 | changes the status of one row, or reports that there is none |
| `Backend.Server.CreatePayment` | backend/app/repositories/payment_repository.py:9-30 | appends one payment awaiting the gateway |
| `Backend.Server.UpdatePaymentStatus` | backend/app/repositories/payment_repository.py:50-64 | changes the status of one payment, or reports that there is none |
| `Backend.Server.ProcessPayment` | backend/app/services/payment.py:32-78 | one engine step, however the gateway answers; succeeds iff the amount is positive, the booking is open and the gateway approves, and then the booking is confirmed |
| `Backend.Server.RefundPayment` | backend/app/services/payment.py:81-93 | one engine step; succeeds iff the payment stands at succeeded |
| `Backend.Server.SearchAvailableRooms` | backend/app/api/v1/public/search.py:133-175 | one engine step; answers exactly the cached-and-active or freshly available rooms, each with the price of the stay |
| `Backend.Server.HourlyCacheWarmup` | backend/app/tasks/batch_tasks.py:72-87 | one engine step; afterwards each of the next seven nights of every hotel is cached with its current answer |
| `TokenBucket.Limiter.IsAllowed` | backend/app/components/token_bucket.py:86-95 | runs refill-then-consume on the key of this address and path with its route's configuration; no other key changes |
| `TokenBucket.Limiter.GetConfig` | backend/app/components/token_bucket.py:80-84 | the first configured prefix of the path decides, else the default |
| `TokenBucket.RoutesInNumbers` | backend/app/components/token_bucket.py:66-70 | ten tokens and ten a minute for registration, twenty for login, two hundred for every other path |
| `TokenBucket.ConfiguredBucketsFillInTime` | backend/app/components/token_bucket.py:66-70 | every configured bucket fills in 60 seconds, within its 3600-second expiry |
| `TokenBucket.KeysAreDistinct` | backend/app/components/token_bucket.py:89-89 | two pairs of address and path with one key are the same pair, unless the longer address holds “:/” |
| `TokenBucket.HeaderNamesSendable` | backend/app/middleware/token_bucket_middleware.py:11-15 | the forwarding header can name exactly the addresses without commas and without blanks at either end |
| `TokenBucket.FirstOfManyCounts` | backend/app/middleware/token_bucket_middleware.py:11-15 | of several addresses the first one counts; without a header the peer does |
| `TokenBucket.TrimmedDropsBlanks` | backend/app/middleware/token_bucket_middleware.py:14-14 | blanks around the address do not count |
| `TokenBucket.KeyIsSharedIff` | backend/app/middleware/token_bucket_middleware.py:30-38 | a pair shares its key with another pair the limiter can be asked about iff its address or its path can be split at a “:/” into such a pair |
| `TokenBucket.KeyCollision` | backend/app/components/token_bucket.py:89-89 | two different pairs with one key |
| `BucketTraces.TokensStayInRange` | backend/app/components/token_bucket.py:39-55 | tokens stay between 0 and capacity, whatever the clocks do |
| `BucketTraces.DriftIsHarmless` | backend/app/components/token_bucket.py:49-53 | a bucket that fills within the hour is full by the time it expires, as long as the server's clock gains at most the rest of the hour on the callers' |
| `BucketTraces.ExpiryIsInvisible` | backend/app/components/token_bucket.py:49-53 | if every bucket that expires would have been full, the expiring and the never-expiring limiter find, decide and keep the same at every call |
| `BucketTraces.OneClockHidesExpiry` | backend/app/components/token_bucket.py:49-53 | on one clock, capacity ≤ 3600 × rate is enough for that |
| `BucketTraces.PaidIsExact` | backend/app/components/token_bucket.py:49-53 | the condition is exact, for that and for the bound on what passes: the clock readings of a trace keep either promise, at every call or on every stretch and at all costs, iff every bucket that expires would have been full |
| `BucketTraces.TokensAreLeastSlack` | backend/app/components/token_bucket.py:43-54 | the stored tokens are the least, over all start points, of capacity + rate × elapsed − cost let through |
| `BucketTraces.AdmissionIff` | backend/app/components/token_bucket.py:43-54 | a call passes iff its cost fits that slack at every earlier start point |
| `BucketTraces.DeployedAdmissionIff` | backend/app/components/token_bucket.py:66-95 | the same on every configured route, with the server's clock up to 59 minutes ahead |
| `BucketTraces.AllowanceInNumbers` | backend/app/components/token_bucket.py:66-95 | in numbers: since any earlier call at most 10 + elapsed/6 for registration, 20 + elapsed/3 for login, 200 + elapsed·10/3 elsewhere |
| `BucketTraces.BurstInNumbers` | backend/app/components/token_bucket.py:66-95 | of unit calls at one instant on a fresh bucket, the first 10, 20 or 200 pass and no more |
| `BucketTraces.PassedIsBounded` | backend/app/components/token_bucket.py:43-54 | whatever both clocks do, what passed and what is kept is at most capacity + rate × (sum of forward jumps) + what expiries gave away beyond their jumps |
| `BucketTraces.PassedWithinForward` | backend/app/components/token_bucket.py:43-54 | with callers' clocks that may step back, a run of calls gets at most capacity + rate × (sum of forward jumps), if every bucket that expires would have been full |
| `BucketTraces.DeployedWithinForward` | backend/app/components/token_bucket.py:66-95 | the same on every configured route, with the server's clock up to 59 minutes ahead |
| `BucketTraces.ServerClockAhead` | backend/app/components/token_bucket.py:49-53 | on the login route, two calls for twenty tokens each pass while the callers' clock stands still |
| `RejectedCalls.RejectedCallsLeaveNoTrace` | backend/app/components/token_bucket.py:46-50 | deleting all rejected calls from a trace lets every remaining call pass and leaves the next call the same tokens and the same decision |
| `RejectedCalls.DeployedRejectedLeaveNoTrace` | backend/app/components/token_bucket.py:46-50 | the same decision on every configured route, with the server's clock up to 59 minutes ahead |
| `RejectedCalls.UnpaidGapShows` | backend/app/components/token_bucket.py:46-50 | where an expiry would not be made up for, a rejected call that renews the bucket's life does change a decision |
| `BucketStore.BucketsAreIndependent` | backend/app/components/token_bucket.py:86-95 | however requests of different callers are mixed, each pair's bucket is what its own calls alone would have left, as long as no address holds “:/” |
| `BucketStore.BucketIsOwnIff` | backend/app/components/token_bucket.py:86-95 | one pair has a bucket of its own in every mix of requests that can be sent iff neither its address nor its path can be split so |
| `Registry.ConnectionManager.Connect` | backend/app/services/websocket.py:131-134 | appends the socket under the user and keeps the registry well kept |
| `Registry.ConnectionManager.Disconnect` | backend/app/services/websocket.py:136-138 | removes the socket; a user without sockets leaves the registry |
| `Registry.ConnectionManager.Remove` | backend/app/services/websocket.py:140-145 | removes the socket; a user without sockets leaves the registry |
| `Registry.ConnectionManager.ConnectedUsers` | backend/app/services/websocket.py:147-149 | the number of users with at least one registered socket |
| `Registry.ConnectionManager.LocalSend` | backend/app/services/websocket.py:79-88 | each registered socket of the user gets the payload once unless it fails; the failed ones leave the registry; nothing else changes |
| `Registry.ConnectionManager.LocalBroadcast` | backend/app/services/websocket.py:90-100 | the same for every socket of every user |
| `Registry.ConnectionManager.Deliver` | backend/app/services/websocket.py:58-71 | a message from the channel goes to its user's sockets, or to everyone's |
| `Registry.DeliveryKeepsWellKept` | backend/app/services/websocket.py:79-100 | a delivery leaves no empty list, no repeated socket, and exactly the sockets that did not fail |
| `Fanout.NextKeeps` | backend/app/services/websocket.py:58-145 | every event of the protocol keeps the delivery invariant |
| `Fanout.ExactlyOnceInOrder` | backend/app/services/websocket.py:58-145 | for any number of replicas and any interleaving, every registered socket has received exactly the channel events for its user or for everyone, in order and once each, from its registration point to its replica's cursor |
| `Fanout.NothingBreaks` | backend/app/services/websocket.py:79-100 | in every behaviour, a socket that was ever registered, dead or alive, holds an unbroken stretch of its user's events, in order and once each, from its registration point on |
| `Fanout.NothingFromBefore` | backend/app/services/websocket.py:47-55 | a replica delivers nothing that was published before it subscribed: whatever a socket of it received lies in the log from there on |
| `Fanout.CursorCountsListens` | backend/app/services/websocket.py:57-65 | a listener starts at the end of the log and moves on by one message at a time |
| `Fanout.LogIsPublished` | backend/app/services/websocket.py:104-129 | the log is what was published, in that order |
| `Fanout.ConnectedOnce` | backend/app/services/websocket.py:131-134 | connecting registers the socket at its listener's position, and that is never rewritten |
| `Fanout.StaysUntilTakenOff` | backend/app/services/websocket.py:79-100 | a registered socket leaves iff it disconnects or fails to take a message for its user |
| `Fanout.TakenOffIsGone` | backend/app/services/websocket.py:136-145 | then it is registered nowhere |
| `Fanout.GoneForGood` | backend/app/services/websocket.py:136-145 | and receives nothing more |
| `Fanout.OnePlaceEach` | backend/app/services/websocket.py:131-145 | a socket is registered in at most one place of the whole system |
| `Fanout.ReplicasAgree` | backend/app/services/websocket.py:104-129 | once all listeners have caught up, sockets of one user that joined at the same position hold the same events on every replica |
| `Fanout.OneReplicaPublishesLocally` | backend/app/services/websocket.py:104-129 | with one replica, publishing and draining in any interleaving that ends drained leaves the registry and inboxes of delivering the messages locally |
| `Phone.ApplyMask` | frontend/react-app/src/components/PhoneInput.jsx:58-70 | the loop fills the mask with the digits and stops at the last one |
| `Phone.StripUndoesMask` | frontend/react-app/src/components/PhoneInput.jsx:58-70 | for every digit string and mask, stripping the display gives the digits back, as many as the mask has room for |
| `Phone.DisplayFollowsMask` | frontend/react-app/src/components/PhoneInput.jsx:58-70 | the display is a beginning of the mask with digits for its marks |
| `Phone.DisplayEndsInDigit` | frontend/react-app/src/components/PhoneInput.jsx:58-70 | a display of digits the mask has room for ends in the last digit: no separator follows it |
| `Phone.ParseE164` | frontend/react-app/src/components/PhoneInput.jsx:75-86 | the loop over the sorted copy returns the first row whose dial code starts the text, with the digits after it |
| `Phone.SearchIsBest` | frontend/react-app/src/components/PhoneInput.jsx:77-83 | searching the sorted copy finds the longest matching dial code, the earliest row among equals |
| `Phone.BestIsLongest` | frontend/react-app/src/components/PhoneInput.jsx:77-83 | nothing is found iff no dial code starts the text; what is found is a longest match and the first row with its code |
| `Phone.ReadIffCode` | frontend/react-app/src/components/PhoneInput.jsx:75-86 | a text is read iff it starts with a plus and with a code; its local digits are the digits after the code |
| `Countries.CountriesEmitDigits` | frontend/react-app/src/components/PhoneInput.jsx:132-136 | what is emitted is a plus and digits only |
| `Phone.EmittedIsPlusAndDigits` | frontend/react-app/src/components/PhoneInput.jsx:132-136 | for every code of a plus and digits: the code, then the local digits up to the country's length, or nothing at all |
| `Countries.CountriesAreDecodable` | frontend/react-app/src/components/PhoneInput.jsx:7-51 | the table's dial codes are prefix-free, rows that share one agree on length, and each mask has room for its digits and shows no other digit |
| `PhoneInput.ParseUndoesEmit` | frontend/react-app/src/components/PhoneInput.jsx:132-136 | for every table with prefix-free codes that agree on length, every row and digit string: parsing what was emitted gives back the dial code and the digits, and emitting again gives the same text; no digits are emitted as the empty text, which is not parsed |
| `PhoneInput.NormalIsStable` | frontend/react-app/src/components/PhoneInput.jsx:75-136 | for every such table and every text, parse-then-emit twice is parse-then-emit once |
| `PhoneInput.RetypingIsIdentity` | frontend/react-app/src/components/PhoneInput.jsx:147-153 | typing back what is shown changes nothing |
| `PhoneInput.EchoKeepsWhatWasEmitted` | frontend/react-app/src/components/PhoneInput.jsx:101-111 | the emitted value, handed back by the parent, keeps the dial code, the value and the digits that were emitted; the country stays iff the value is the one seen last, or there are no digits, or it is the earliest row with its code |
| `Countries.CanadaBecomesUnitedStates` | frontend/react-app/src/components/PhoneInput.jsx:101-111 | a Canadian number handed back by the parent as a new value stands under the United States |
| `Countries.SelectedCanadaStays` | frontend/react-app/src/components/PhoneInput.jsx:138-142 | selecting Canada over a number of the United States emits the value seen last, and Canada stays |
| `PhoneInput.Input.SyncValue` | frontend/react-app/src/components/PhoneInput.jsx:101-111 | the field follows a new value of the parent; a readable one is cut to the country's length |
| `PhoneInput.Input.ReceiveValue` | frontend/react-app/src/components/PhoneInput.jsx:101-111 | a rendering changes the field only if the parent's value differs from the one seen last |
| `PhoneInput.Input.HandleNumberInput` | frontend/react-app/src/components/PhoneInput.jsx:147-151 | keeps the typed digits, cut to the country's length, and emits their number |
| `PhoneInput.Input.HandleCountrySelect` | frontend/react-app/src/components/PhoneInput.jsx:138-145 | switches the country, keeps the digits, and emits their number under the new code |
| `Reorder.Nearest` | design_handoff_azure_horizon/design-canvas.jsx:409-413 | the loop finds the slot nearest to the card, the first in a tie |
| `Reorder.DistanceIsSymmetric` | design_handoff_azure_horizon/design-canvas.jsx:411-411 | the distance is the difference without its sign |
| `Reorder.Drag.Move` | design_handoff_azure_horizon/design-canvas.jsx:405-419 | after any history, the live order is the original with the card put at the slot nearest to the pointer now |
| `Reorder.MovedIsReordering` | design_handoff_azure_horizon/design-canvas.jsx:414-418 | that order has every id once, the card at the slot, the others in their old order |
| `Reorder.BackHome` | design_handoff_azure_horizon/design-canvas.jsx:405-419 | a card brought back over its own place leaves the order as it was |
| `Reorder.MergeIsPermutation` | design_handoff_azure_horizon/design-canvas.jsx:342-345 | the merge holds every source id exactly once |
| `Reorder.MergeKeepsBothOrders` | design_handoff_azure_horizon/design-canvas.jsx:342-345 | saved ids keep their saved order, the others their source order |
| `Reorder.NewIdsComeLast` | design_handoff_azure_horizon/design-canvas.jsx:344-344 | every id that was saved stands before every id that was not |
| `Reorder.MergeIsIdempotent` | design_handoff_azure_horizon/design-canvas.jsx:342-345 | merging again changes nothing |
| `Reorder.DropShowsIff` | design_handoff_azure_horizon/design-canvas.jsx:421-435 | after a drop the dragged order is shown iff the joined texts differ or nothing moved |
| `Reorder.DropIsShown` | design_handoff_azure_horizon/design-canvas.jsx:431-431 | with bar-free ids every drop is shown |
| `Reorder.BarHidesDrop` | design_handoff_azure_horizon/design-canvas.jsx:431-431 | two ids, one with a bar, for which a real reorder is taken for no change and lost |
| `Reorder.BarHidesSource` | design_handoff_azure_horizon/design-canvas.jsx:342-345 | two source lists that join to one text: the section goes on showing ids that are gone |
| `Reorder.ChangeShowsMergeIff` | design_handoff_azure_horizon/design-canvas.jsx:342-345 | after a drag, a source change or a load the shown order is the merge of what is saved and what is there iff the change was not a source change, or the joined texts differ, or the two merges are equal |
| `Reorder.SessionsStayConsistent` | design_handoff_azure_horizon/design-canvas.jsx:339-345 | after any run of drags, artboard additions or removals and loads that pass that condition, the shown order is the merge: each artboard once, the saved order and the source order kept, merging again changes nothing |
| `Reorder.PlainSessionsAreNoticed` | design_handoff_azure_horizon/design-canvas.jsx:342-345 | with bar-free, non-empty ids every run passes it |
| `Reorder.ReturnRestores` | design_handoff_azure_horizon/design-canvas.jsx:342-345 | an artboard that goes and comes back, both noticed, returns to its place |
| `Reorder.LoadedIsShown` | design_handoff_azure_horizon/design-canvas.jsx:342-345 | a loaded order of the artboards that are there is shown as it is |
| `Viewport.View.ZoomAt` | design_handoff_azure_horizon/design-canvas.jsx:197-208 | the world point under the cursor stays there, at the asked-for scale clamped to the limits |
| `Viewport.ClampKeepsWithin` | design_handoff_azure_horizon/design-canvas.jsx:201-201 | a scale inside the limits is the one asked for, beyond them it is the limit |
| `Viewport.View.Pan` | design_handoff_azure_horizon/design-canvas.jsx:228-233 | every screen position shows what stood the scrolled distance to its right and below it |
| `Viewport.View.GestureChange` | design_handoff_azure_horizon/design-canvas.jsx:243-247 | the scale follows the gesture from its start, about the same fixed point |
| `Viewport.RescaleTwice` | design_handoff_azure_horizon/design-canvas.jsx:197-208 | two zooms about one position are one zoom to the second scale |
| `Viewport.PinchIsHistoryFree` | design_handoff_azure_horizon/design-canvas.jsx:243-247 | a pinch held at one position depends only on its last event |
| `GuestScore.ComputeAiScore` | backend/app/services/guest_intelligence.py:24-68 | the accumulated score, clamped to 0–100 |
| `GuestScore.StayNeverLowers` | backend/app/services/guest_intelligence.py:48-51 | with spend fixed, one more completed stay, new or on record, never lowers the score |
| `GuestScore.CancellationNeverRaises` | backend/app/services/guest_intelligence.py:53-55 | one more cancellation, new or on record, never raises it |
| `GuestScore.LowerClampIsIdle` | backend/app/services/guest_intelligence.py:68-68 | on consistent counts the lower clamp never fires and the raw score is at most 105 |
| `GuestScore.PointsInNumbers` | backend/app/services/guest_intelligence.py:42-58 | three points per thousand loyalty points up to 15, twenty times the share of bookings completed or cancelled, one per 300 spent up to 10 |
| `GuestScore.MarksInNumbers` | backend/app/services/guest_intelligence.py:60-66 | the VIP mark adds ten, a ban takes thirty |
| `GuestScore.EmptyScore` | backend/app/services/guest_intelligence.py:42-42 | a guest without anything stands at fifty |
| `GuestScore.ValueClosedForm` | backend/app/services/guest_intelligence.py:147-178 | for positive stays the unrounded lifetime value is spent × (1 + 12 × retention / tenure months) |
| `GuestScore.ValueInNumbers` | backend/app/services/guest_intelligence.py:121-178 | the same in numbers, with the five return rates by days since the last visit |
| `GuestScore.ValueAtTheEdges` | backend/app/services/guest_intelligence.py:147-164 | no stay, no value; an unknown start counts as a year |
| `GuestScore.ValueIgnoresStayCount` | backend/app/services/guest_intelligence.py:160-178 | it does not depend on the stay count |
| `GuestScore.ValueRange` | backend/app/services/guest_intelligence.py:170-178 | it lies between spent and 11.8 × spent |
| `GuestScore.ValueNeverRisesWithAbsence` | backend/app/services/guest_intelligence.py:121-140 | it never rises with the days since the last visit |
| `Revocation.EntryLifetime` | backend/app/services/token_blacklist.py:22-27 | an entry is kept until its token expires and is gone within one second of the later of that expiry and its storing |
| `Revocation.TokenBlacklist.BlacklistToken` | backend/app/services/token_blacklist.py:22-29 | the id is listed at every moment before its token's expiry and no longer one second after the later of that expiry and its storing; no other id is affected |
| `Revocation.TokenBlacklist.Logout` | backend/app/api/v1/public/auth.py:248-267 | lists the ids of the tokens that still decode for as long as they do; the access token is refused from then on |
| `Revocation.RevokedIsNeverAccepted` | backend/app/dependencies.py:46-62 | once logout has seen a token, no later request with it is accepted, whatever happens in between, if tokens stop decoding at their expiry |
| `Revocation.OnlyStrictExpiryIsCovered` | backend/app/services/token_blacklist.py:22-27 | a decoder that accepts a token for a grace period after its expiry is covered for every moment of logout iff the period is zero; for one moment, iff the clock is that far past its whole second |
| `Revocation.OthersAreUnaffected` | backend/app/dependencies.py:46-62 | a token nobody logged out is accepted iff it is an access token, before its expiry, of a user that exists |
| `Revocation.NothingToRevoke` | backend/app/api/v1/public/auth.py:259-267 | a token that no longer decodes, or has no id or no expiry, leaves the blacklist as it is |
| `Revocation.EntriesExpire` | backend/app/services/token_blacklist.py:22-27 | in every run each entry comes from a logout and is gone within a second of its token's expiry |

## Left out

- Interleavings inside one request (the check and the insert of a booking, the commits of a payment): the code takes no lock, so every property is stated per request.
- Interleavings inside one delivery: a listener's step and a local broadcast are atomic here, so a socket that connects while a message is being sent joins before or after that message.
- Failed Redis calls: swallowed cache errors, fail-open limiter and blacklist, and the local fallback of a failed publish. Redis, the database, the connection pool and replica lag are maps and tables with atomic steps and one clock.
- Failures between the commits of one payment: `Backend.Server.ProcessPayment` runs to the end, so a payment left pending by a crash does not occur.
- Dates at the ends of the calendar, where moving a window by a day overflows.
- Coherence.ShortStaysServeFresh: leaves out runs with blackouts, new or reactivated rooms, and cancelling or reviving overrides, because those endpoints never touch the cache; Staleness.CachedAnswerIsRecent covers them, and Coherence.UndisturbedWindowIsFresh covers them for the windows they do not disturb.
- Occupancy.RateIsBounded: on exact reals, where the code divides floating-point numbers; the report's other figures (counts by creation date, comparison with the previous period, room types) are plain sums.
- GuestScore.ValueClosedForm: the value before it is rounded to cents, on exact reals; the score's divisions are exact as well, where the code divides floating-point numbers.
- Pricing.CalculateBookingPrice: exact decimals, without the rounding of the stored price to two places.
- Guest segments, risk scores and loyalty tiers: branches over the same counts.
- Reorder.Drag.Move: the order only; transforms, transitions and the timer that commits a drop are not modelled, nor source changes while a card is held.
- Country names, flags and the search box of the phone input.
- Viewport.View.ZoomAt: wheel heuristics and the exponentials that turn wheel deltas into factors; a factor is a parameter.
- Revocation.RevokedIsNeverAccepted: tokens are taken to stop decoding at their expiry, the strict reading of section 4.1.4 of RFC 7519; the decoding library compares whole seconds and is not part of this model, and Revocation.OnlyStrictExpiryIsCovered says what a later cut-off would lose. Token ids are taken to be unique, as the issuing code makes them; signing and issuing are not part of this model, nor is the endpoint that trades refresh tokens (backend/app/api/v1/public/auth.py:368-396), which decides without the blacklist.
- Notifications of check-in and check-out, the hotel list cache, wishlists, reviews, users, reports other than occupancy, e-mail, storage and search indexing: plain create, read, update and delete.
