# Eternal Essence backend: a verified model of its order, payment, account and admin logic

This project models the server logic of the Eternal Essence shop backend, an Express and Mongoose
application. It covers:

- the four order-id generators;
- the order collection and its unique `orderId` index;
- the three drafts of the checkout handlers, in `server.js`, `controllers/orderController.js` and
  `routes/orderRoutes.js`: create an online (Razorpay) order, create a cash-on-delivery order, verify
  the payment callback, and list the caller's orders;
- the admin status overwrite, cancel and monthly sales report;
- the account OTP state machine in its two drafts (`server.js` and `controllers/authController.js`)
  over the `User` record;
- the wishlist and review tables with their uniqueness rules;
- the admin authorisation middleware and the admin login;
- the MongoDB URI clean-up, credential masking and bounded retry of `config/db.js`.

Every handler runs as one sequential step over a collection held as a sequence in insertion order.
A document's `_id` is its position, and `findOne` returns the first match. Handlers that change state
are methods on store classes (`OrderStore`, `RouteOrderStore`, `UserStore`, `ReviewStore`,
`WishlistStore`). Each such method is proved equal to a specification function of the old state. The
properties the code promises are then proved as lemmas about those functions.

Inputs that the code takes from its environment are parameters:

- the clock (`Clock`, `now`);
- random draws (`OtpDraw`, the 0..9999 draw of `routes/orderRoutes.js`);
- the Razorpay gateway's answer (`GatewayReply`);
- HMAC-SHA256, an uninterpreted function `Hmac(secret, text)`;
- the JWT verifier and signer (function values over a decoded `Payload`);
- whether the OTP mail went out;
- the connection attempts of `mongoose.connect`.

bcrypt is a `Digest` that `Compare` accepts exactly for the text it was made from.

Conventions:

- Money is exact (`real`).
- An absent string field is `""`. The code treats it like an empty one (`!x`, `x || ''`).
- The two checkout drafts that share `models/Order.js` are one function with a `Draft` parameter
  (`Server` or `Controller`). Where the drafts differ, the function branches on it.

The order lifecycle the code implements is simple:

- There is no `PaymentFailed` state and no payment retry. A bad signature answers 400 and changes nothing (`Checkout.VerifyMismatchChangesNothing`).
- Signatures are compared with plain `!==`, not in constant time.
- Status changes have no transition table. The admin writes any allowed status over any other (`AdminOrders.UpdateOverwritesAnyStatus`) and cancels from every status, Shipped and Delivered included (`AdminOrders.CancelUnconditional`).
- The sequential order ids are read and then written with no atomic counter, and wrap after 9999 (see Findings).
- The status literals are those the code writes: `Created`, `Payment Success`, `Payment Success (Online)`, `Pending (COD)`, and the admin's five.

Where a code comment and the code disagree, the model follows the code. The comment at
`config/db.js:6` says the clean-up fixes the "mongodb+srv//" typo. The replacements at lines 20-22 only
double a single slash after the colon, so `mongodb+srv//…` stays invalid (`MongoConfig.MissingColonNotRepaired`).

Modules, one per file:

| module | models |
|---|---|
| `Wrappers`, `Http` | Option, the reply of a handler (status and body, or status and error text) |
| `JsText` | the JavaScript string and number built-ins the code uses: `String(n)`, `parseInt`, `padStart`, `slice(-n)`, `trim`, `toLowerCase`, `split`/`join`, `indexOf`/`lastIndexOf` |
| `Query` | Mongo `find`, `findOne`, `sort({ key: -1 })` and `limit` over a sequence |
| `Secrets` | bcrypt digests, the signed text of a Razorpay callback, the JWT payload |
| `Gateway` | the request sent to Razorpay and its answer |
| `OrderIdGenerator` | `utils/orderIdGenerator.js` |
| `InlineOrderIds` | the timestamp ids of `server.js` and of the controller, and the random ids of the router |
| `OrderModel` | `models/Order.js`: `Order`, `Status`, `PaymentMethod`, the `OrderStore` |
| `Checkout` | the order handlers of `server.js` and `controllers/orderController.js` |
| `RouteOrders` | `routes/orderRoutes.js`, with its own field names and its own collection |
| `AdminOrders` | `controllers/adminController.js` |
| `UserModel` | `models/User.js` and the `UserStore` |
| `ServerAuth` | register, verify-otp and login in `server.js` |
| `AuthController` | `controllers/authController.js` |
| `Reviews` | `controllers/reviewController.js` over `models/Review.js` |
| `Wishlist` | `controllers/wishlistController.js` over `models/Wishlist.js` |
| `AdminAuth` | `middleware/adminAuth.js` and `controllers/adminAuthController.js` |
| `MongoConfig` | `config/db.js` |

## Model

| member | source | states |
|---|---|---|
| OrderIdGenerator.YearPrefix | utils/orderIdGenerator.js:7 | the prefix `EE<year>` starts with "EE" and then a digit |
| OrderIdGenerator.LastOrderOfYear | utils/orderIdGenerator.js:6-8 | absent exactly when no stored id starts with `EE<year>`; otherwise a stored matching order with the latest `createdAt` |
| OrderIdGenerator.FormatShape | utils/orderIdGenerator.js:17 | every id is `EE<year>` followed by at least four digits, with no separator: everything after "EE" is digits |
| OrderIdGenerator.FirstOfYear | utils/orderIdGenerator.js:6-10 | with no id of this year stored, the id is `EE<year>0001` |
| OrderIdGenerator.ContinuesFromLast | utils/orderIdGenerator.js:12-15 | when the last four characters of the newest matching id parse as n, the sequence is n + 1 |
| OrderIdGenerator.NonNumericFallsBack | utils/orderIdGenerator.js:13-14 | when those four characters are not a number, the sequence falls back to 1 |
| OrderIdGenerator.SequenceRoundTrip | utils/orderIdGenerator.js:13-17 | for 1 <= n <= 9999 the suffix is exactly four characters, and parsing the last four gives back n |
| OrderIdGenerator.PaddedSequence | utils/orderIdGenerator.js:17 | a sequence below 10^4, padded to four, is four digits that denote it |
| OrderIdGenerator.NextAfter | utils/orderIdGenerator.js:12-17 | reading back the id generated for n <= 9999, the generator continues with n + 1 |
| OrderIdGenerator.WideSequenceKept | utils/orderIdGenerator.js:17 | padding never truncates: from 10000 on, the full decimal number is appended |
| OrderIdGenerator.HyphenatedNeverMatches | utils/orderIdGenerator.js:7 | ids that start with "EE-" never match the `^EE<year>` query |
| OrderIdGenerator.SequenceWrapsAfter9999 | utils/orderIdGenerator.js:13-17 | as written: after `EE<year>10000` the next id is `EE<year>0001` again, which the unique index refuses in a store that holds the year's first id |
| OrderIdGenerator.WideReadsZero | utils/orderIdGenerator.js:13-14 | the last four characters of `EE<year>10000` read as 0, so the sequence restarts at 1 |
| OrderIdGenerator.FixedNextAfter | utils/orderIdGenerator.js:13-17 | corrected: reading the whole text after `EE<year>`, the generator continues with n + 1 for every n |
| OrderIdGenerator.PaddedValue | utils/orderIdGenerator.js:17 | any padded sequence number is a non-empty digit string that denotes it |
| OrderIdGenerator.FixedFirstOfYear | utils/orderIdGenerator.js:10-17 | the correction leaves the year's first id unchanged |
| InlineOrderIds.FixedDigits | server.js:22 | the k low-order digits of n form k decimal digits |
| InlineOrderIds.LastDigitsAreFixed | server.js:22 | the last k characters of `String(n)` are its k low-order digits |
| InlineOrderIds.FixedDigitsValue | server.js:22 | the k low-order digits denote n modulo 10^k |
| InlineOrderIds.FixedDigitsPeriodic | server.js:22 | adding 10^k leaves the k low-order digits unchanged |
| InlineOrderIds.TimestampSuffix | server.js:22-23 | from 100000 ms on, the id is "EE-", the year, "-" and the timestamp's six low-order digits |
| InlineOrderIds.TimestampShape | server.js:20-24 | a timestamp id is "EE-" + year + "-" + exactly six digits that read back as the timestamp modulo 10^6 |
| InlineOrderIds.TimestampIdsRepeat | controllers/orderController.js:17-21 | two orders placed 10^6 ms apart in the same year get the same id |
| InlineOrderIds.RandomShape | routes/orderRoutes.js:18-22 | a random id is "EE-" + year + "-" + exactly four digits that read back as the draw |
| InlineOrderIds.RandomIdsInjective | routes/orderRoutes.js:18-22 | distinct draws give distinct ids within a year |
| OrderModel.Inserted | models/Order.js:4-21 | an insert keeps every stored document and appends the new one with the next `_id` |
| OrderModel.InsertKeepsWellFormed | models/Order.js:5-7 | inserting an accepted document keeps `orderId` unique and `orderId` and `buyerEmail` present |
| OrderModel.DuplicateRejected | models/Order.js:5 | a document whose `orderId` is already stored is refused |
| OrderModel.WithPayment | server.js:418-426 | the callback update sets status, payment id and signature and changes no other field |
| OrderModel.WithStatusAt | controllers/adminController.js:13 | overwriting one document's status changes that field of that document only |
| OrderModel.ReplaceKeepsWellFormed | models/Order.js:5-7 | rewriting a document without touching `orderId`, `_id` or `buyerEmail` keeps the guarantees |
| OrderModel.FindByGatewayOrder | server.js:418-419 | absent exactly when no document has that `razorpay_order_id`; otherwise it points at such a document |
| OrderModel.FindById | controllers/adminController.js:13 | a document is found by `_id` exactly when one has that `_id` |
| OrderModel.OrderStore.Save | models/Order.js:5-7 | `save()` succeeds exactly when the collection accepts the document, and then inserts it; otherwise nothing changes |
| OrderModel.OrderStore.Replace | models/Order.js:5-7 | writing back a fetched document replaces that position only |
| Query.FirstIndex | utils/orderIdGenerator.js:6-7 | `findOne`: absent exactly when nothing matches; otherwise the first match |
| Query.Filter | server.js:337 | `find` keeps only matching documents |
| Query.FilterCounts | server.js:337 | `find` keeps each matching document as often as it is stored and drops the rest |
| Query.SortDesc | server.js:338 | `sort({ createdAt: -1 })` is a permutation in descending key order |
| Query.SortedFilter | controllers/reviewController.js:70-71 | a sorted query returns every match, each as often as stored, and no other document, newest first |
| Query.NewestMatching | utils/orderIdGenerator.js:6-8 | a sorted `findOne` is empty exactly when nothing matches, and otherwise returns a match with the largest key |
| Query.Take | server.js:339 | `limit(n)` is the first min(n, length) documents |
| Query.PageOf | controllers/orderController.js:143 | a sorted, limited page holds the n matches with the largest keys: min(n, matches) rows, all matching and taken from the matches, newest first, and every match left off is no newer than the last row |
| Secrets.Hash | server.js:191 | the digest of a text is accepted by `compare` for that text |
| Secrets.CompareOnlyOwnText | server.js:239-242 | `compare` refuses any other text |
| Secrets.SignedText | server.js:411 | the signed text is the order id, "\|" and the payment id |
| Secrets.SignedTextSplits | server.js:410-412 | the signed text determines both ids when the order id has no "\|" |
| Checkout.Buyer | controllers/orderController.js:45-48 | server.js takes the customer as given, and fails without one; the controller lowercases the email and uses "" for every absent field |
| Checkout.NewOrder | server.js:373-387 | the new document carries the id, time, buyer, cart, total, coupon, method, status and gateway id, and no payment fields |
| Checkout.CreateRazorpayOrder | server.js:354-403 | the handler's reply, gateway call and collection are those of `CreateOnline` for both drafts |
| Checkout.CreateRejectsBadTotal | server.js:358-360 | a missing, zero or negative total gets 400, with no gateway call and no write |
| Checkout.CreateCallsGatewayFirst | server.js:362-371 | a positive total always reaches the gateway with total × 100 paise in INR and the new id as receipt; a gateway failure writes nothing |
| Checkout.CreateSavesCreatedOrder | server.js:373-397 | success inserts exactly one document: the new id, `Created`, `Razorpay` and the gateway id, echoed in the reply; every failure writes nothing |
| Checkout.CreateSucceedsIff | controllers/orderController.js:28-67 | create succeeds exactly when the total is positive, the gateway answers, a buyer can be read and the unique index accepts the id |
| Checkout.ControllerBuyerFields | controllers/orderController.js:45-48 | the controller stores the customer email lowercased, and "" for absent name, phone and address |
| Checkout.ServerNeedsCustomer | server.js:373-378 | server.js without a customer answers 500 after the gateway call and saves nothing |
| Checkout.VerifyRazorpay | server.js:406-436 | the handler's reply and collection are those of `VerifyPayment` |
| Checkout.VerifyMismatchChangesNothing | server.js:410-416 | a signature mismatch answers 400 before any lookup and changes nothing |
| Checkout.VerifyUpdatesOnlyTarget | server.js:418-430 | with a valid signature: 404 when no order has that gateway id; otherwise the first such order, and only it, gets `Payment Success` with the payment id and signature |
| Checkout.VerifyIdempotent | server.js:418-430 | replaying a callback answers the same and leaves the collection as the first delivery did |
| Checkout.CreateCodOrder | server.js:439-468 | the handler's reply and collection are those of `CreateCod` for both drafts |
| Checkout.CodShape | server.js:443-462 | a COD order is inserted as `Cash on Delivery`, `Pending (COD)`, with no gateway fields, whatever its total; a failure writes nothing |
| Checkout.Authenticate | server.js:72-86 | 401 unless the header starts with "Bearer " and the verifier accepts the text after those 7 characters; success carries the decoded payload |
| Checkout.AuthenticateBearer | server.js:77 | the token read is exactly what followed "Bearer " |
| Checkout.MyOrdersPage | server.js:330-349 | 400 exactly when the token email is blank after the draft's clean-up; otherwise the caller's 100 newest orders (all of them when there are at most 100), newest first, and every order of theirs left off is no newer than the last one listed |
| Checkout.BlankEmailDiffers | controllers/orderController.js:140-143 | a blank token email is refused by server.js but queried by the controller |
| Checkout.ServerMyOrders | server.js:330-349 | behind `authMiddleware`, a refused header is the middleware's 401; otherwise the list for the token's email; Ok exactly when the header is accepted and the trimmed, lowercased token email is not blank |
| RouteOrders.BuildOrderFromPayload | routes/orderRoutes.js:25-40 | a fresh random id, the token's email, the customer's name, phone and address or "" without a customer, the cart, subtotal, discount and total as given, and null for an empty coupon code |
| RouteOrders.PayloadEmailIgnored | routes/orderRoutes.js:28 | the payload's email never changes the built order |
| RouteOrders.Round | routes/orderRoutes.js:78 | `Math.round`: the nearest integer, halves rounded up |
| RouteOrders.RouteInserted | routes/orderRoutes.js:84 | an insert keeps every stored order and appends the new one |
| RouteOrders.RouteInsertKeepsWellFormed | routes/orderRoutes.js:48-52 | inserting an accepted order keeps the ids unique |
| RouteOrders.RouteReplaceKeepsWellFormed | routes/orderRoutes.js:137-140 | saving a fetched order with its id unchanged keeps the ids unique |
| RouteOrders.RouteOrderStore.Create | routes/orderRoutes.js:84 | `Order.create` inserts exactly when the id is free, and otherwise changes nothing |
| RouteOrders.RouteOrderStore.Replace | routes/orderRoutes.js:97-98 | `save()` of a fetched order replaces that position only |
| RouteOrders.Cod | routes/orderRoutes.js:43-63 | the handler's reply and collection are those of `RouteCod` |
| RouteOrders.RouteCodShape | routes/orderRoutes.js:48-52 | a COD order is inserted with `Cash on Delivery`, `Pending (COD)`, the token email and no gateway id; a failure writes nothing |
| RouteOrders.CreateRazorpayOrder | routes/orderRoutes.js:66-112 | the handler's reply, gateway call and collection are those of `RouteCreateOnline` |
| RouteOrders.RouteCreateGuards | routes/orderRoutes.js:68-81 | no gateway configured gives 500; a rounded amount of at most 0 paise gives 400; neither writes nor calls |
| RouteOrders.RouteCreateInsertsFirst | routes/orderRoutes.js:84-107 | the order is stored as `Created` before the gateway call; a gateway failure keeps it without `razorpayOrderId`; a success adds only `razorpayOrderId` |
| RouteOrders.FindOwned | routes/orderRoutes.js:132 | the first order with that gateway id whose `email` is the caller's, or none |
| RouteOrders.VerifyRazorpay | routes/orderRoutes.js:115-151 | the handler's reply and collection are those of `RouteVerify` |
| RouteOrders.RouteVerifyRejects | routes/orderRoutes.js:118-130 | a missing field or a wrong signature answers 400 and changes nothing |
| RouteOrders.RouteVerifyOwnerOnly | routes/orderRoutes.js:132-140 | other users' orders are never changed; Ok exactly when the caller owns an order with that `razorpayOrderId`, else 404; the update sets payment id, signature and `Payment Success (Online)` on the caller's first such order and on nothing else |
| RouteOrders.RouteVerifyIdempotent | routes/orderRoutes.js:132-146 | replaying the callback leaves the collection as the first delivery did |
| RouteOrders.RouteMyOrders | routes/orderRoutes.js:157-159 | every order of the token's email, each as often as stored, none of another, newest first, with no limit |
| AdminOrders.ParseAdminStatus | controllers/adminController.js:8-11 | a status is accepted exactly when it is one of the five listed strings, and maps to the status with that literal |
| AdminOrders.UpdateOrderStatus | controllers/adminController.js:2-20 | the handler's reply and collection are those of `UpdateStatus` |
| AdminOrders.CancelOrder | controllers/adminController.js:24-36 | the handler's reply and collection are those of `Cancel` |
| AdminOrders.Overwrite | controllers/adminController.js:13-14 | `findByIdAndUpdate`: 404 for an unknown id, else the updated document |
| AdminOrders.UpdateRejectsUnlisted | controllers/adminController.js:8-11 | a status outside the allow-list answers 400 and writes nothing |
| AdminOrders.UpdateOverwritesAnyStatus | controllers/adminController.js:13-16 | an allowed status overwrites any current one and only that document's `status` changes; an unknown id gives 404 |
| AdminOrders.CancelUnconditional | controllers/adminController.js:29-33 | cancel succeeds from every status, keeps the collection's guarantees, and a second cancel changes nothing; an unknown id gives 404 |
| AdminOrders.DaysInMonth | controllers/adminController.js:46 | a month has 28 to 31 days |
| AdminOrders.NextYear | controllers/adminController.js:45-46 | the day count of 1 January advances by the length of the year |
| AdminOrders.MonthsFillYear | controllers/adminController.js:45-46 | the twelve months add up to the year |
| AdminOrders.LastDayOfMonth | controllers/adminController.js:46 | `new Date(y, m + 1, 0)` is 00:00 on the last day of month m, and the next month starts one day later |
| AdminOrders.GetMonthlySales | controllers/adminController.js:40-61 | the month is reported 1-based; `totalSales` is the sum of totals and `orderCount` the number of this month's orders that are not cancelled |
| AdminOrders.AddUpTotals | controllers/adminController.js:53-54 | the `forEach` accumulation equals the sum of the totals |
| AdminOrders.SumTotalsAppend | controllers/adminController.js:53-54 | sums add up over a concatenation |
| AdminOrders.FilterSum | controllers/adminController.js:48-54 | the sum over the query result equals the per-order sum over the whole collection |
| AdminOrders.SalesAfterCancel | controllers/adminController.js:29 | cancelling an order takes its total out of the month's sales when it was counted, and otherwise leaves the sales as they were |
| AdminOrders.LateLastDayUncounted | controllers/adminController.js:45-50 | an order later on the last day than 00:00 is counted neither in this month's report nor in the next month's |
| UserModel.HandlerFormIsNormal | server.js:165 | the handler's `trim().toLowerCase()` gives the same address as the schema's setters |
| UserModel.NormalizeIsNormal | models/User.js:6 | a stored address has no upper-case letter and no white space at either end |
| UserModel.NormalIsFixed | models/User.js:6 | a normal address is its own normal form |
| UserModel.NormalizeIdempotent | models/User.js:6 | normalising twice changes nothing |
| UserModel.HandlerKeyBlank | server.js:165 | the handler's key is blank after the setters exactly when the raw address is |
| UserModel.NewUser | models/User.js:4-16 | a new account has the normalised email, the given digest, name and phone, is unverified and has no OTP |
| UserModel.StateAt | models/User.js:11-15 | verified exactly when `isVerified`; unverified with no OTP when either OTP field is null; OTP pending when both are set and not expired |
| UserModel.NewUserUnverified | models/User.js:11-15 | a freshly built account is unverified with no OTP pending, at every moment |
| UserModel.FindByEmail | models/User.js:6 | absent exactly when no account has the normalised address; otherwise it points at one |
| UserModel.FindByEmailUnique | models/User.js:6 | in a well-formed collection the lookup finds the only account with that address |
| UserModel.UserInserted | models/User.js:6 | an insert keeps every account and appends the new one |
| UserModel.UserInsertKeepsWellFormed | models/User.js:6 | inserting an accepted account keeps addresses present, normal and unique |
| UserModel.UserReplaceKeepsWellFormed | models/User.js:6 | writing back an account with `_id` and email unchanged keeps the guarantees |
| UserModel.UserStore.Insert | models/User.js:6-7 | `save()` of a new account inserts exactly when the address is non-empty and unused, and otherwise changes nothing |
| UserModel.UserStore.Replace | models/User.js:6 | `save()` of a fetched account replaces that position only |
| ServerAuth.OtpShape | server.js:27-29 | an OTP is six digits with a value in 100000..999999 |
| ServerAuth.Registered | server.js:172-195 | the saved account has the new password and OTP digests, an expiry ten minutes on, and `name \|\| existing` and `phone \|\| existing`; a new one is unverified |
| ServerAuth.RegisterHandler | server.js:157-217 | the handler's reply and collection are those of `Register` |
| ServerAuth.RegisterSteps | server.js:172-212 | assigning the fields one by one and saving gives `RegisterFound` |
| ServerAuth.RegisterRejectsVerified | server.js:167-170 | a verified account is refused with 400 and nothing is written |
| ServerAuth.RegisterPersistsPendingOtp | server.js:189-206 | otherwise the account is stored with a pending OTP expiring ten minutes on; the write is the same whether or not the mail fails, and only a mail failure turns the reply into 500 |
| ServerAuth.RegisterAtPersists | server.js:189-206 | the same for a given normalised key |
| ServerAuth.PendingSaved | server.js:172-196 | the collection register writes holds the account under its key with the new OTP pending |
| ServerAuth.RegisterAtWrites | server.js:189-212 | past the verified check a non-blank address is always written; the mail decides the reply |
| ServerAuth.SavedNew | server.js:172-181 | a new account that the unique index accepts is the one found under its key afterwards |
| ServerAuth.SavedExisting | server.js:183-196 | an account written back in place is still the one found under its key |
| ServerAuth.RegisterBlankEmailFails | server.js:213-216 | an address of only white space passes `!email` but fails the required check: 500 and no write |
| ServerAuth.VerifyOtpHandler | server.js:221-265 | the handler's reply and collection are those of `VerifyOtp` |
| ServerAuth.VerifyOtpSteps | server.js:231-247 | the guards, then three assignments and `save()`, give `VerifyFound` |
| ServerAuth.VerifyOtpCases | server.js:224-247 | success exactly when both fields are sent and the account has both OTP fields, an expiry not before now and a matching code; a failure writes nothing; success verifies that one account, clears both OTP fields and touches no other |
| ServerAuth.VerifyFoundCases | server.js:231-247 | the same for a given lookup result |
| ServerAuth.RegisterThenVerify | server.js:189-247 | the code drawn at registration verifies the account up to and including its expiry instant, and is refused as expired one millisecond later |
| ServerAuth.VerifyPendingOtp | server.js:235-247 | a matching code verifies a pending account until its expiry and is refused as expired after it |
| ServerAuth.LoginGate | server.js:269-306 | an unverified account gets 403 whatever the password; a verified one logs in exactly with its password; an unknown address and a wrong password get the same 400 |
| ServerAuth.LoginFoundGate | server.js:279-301 | the same for a given lookup result |
| AuthController.Rehashed | controllers/authController.js:31-49 | a new account gets the body's name and phone; an existing one only a new password digest; both a fresh OTP digest expiring ten minutes on |
| AuthController.RegisterHandler | controllers/authController.js:24-66 | the handler's reply and collection are those of `Register` |
| AuthController.RegisterSteps | controllers/authController.js:31-61 | building or updating the document, saving and mailing gives `RegisterFound` |
| AuthController.RegisterRewritesExisting | controllers/authController.js:45-51 | an existing account, verified or not, gets a new password digest, OTP and expiry, keeps every other field, and is written whether or not the mail goes out |
| AuthController.RegisterInsertsNew | controllers/authController.js:35-44 | a new address is inserted as one unverified account with the body's name and phone and an OTP pending ten minutes |
| AuthController.RegisterBlankEmailFails | controllers/authController.js:51-64 | an address of only white space fails the required check: 500 and no write |
| AuthController.ExpiryValue | controllers/authController.js:78 | a null expiry compares as 0 |
| AuthController.VerifyOtpHandler | controllers/authController.js:71-100 | the handler's reply and collection are those of `VerifyOtp` |
| AuthController.VerifyOtpSteps | controllers/authController.js:74-91 | the guards, then three assignments and `save()`, give `VerifyFound` |
| AuthController.VerifyOtpCases | controllers/authController.js:74-91 | the failures come in order (404, no OTP, expired, 500 for a non-string code, mismatch) and write nothing; success verifies that one account and clears both OTP fields |
| AuthController.VerifyFoundCases | controllers/authController.js:76-91 | the same for a given lookup result |
| AuthController.RegisterThenVerify | controllers/authController.js:31-87 | the code drawn at registration verifies the account until its expiry and is refused as expired after it |
| AuthController.LoginGate | controllers/authController.js:105-129 | an unverified account gets 403 whatever the password; a verified one logs in exactly with its password; an unknown address and a wrong password both get "Invalid login" |
| AuthController.LoginFoundGate | controllers/authController.js:109-123 | the same for a given lookup result |
| AuthController.MissingEmailFindsNothing | controllers/authController.js:74-76 | an absent address finds no account: verify-otp answers 404 and login "Invalid login" |
| Reviews.FindReview | controllers/reviewController.js:35-37 | absent exactly when no review has that product and user; otherwise it points at one |
| Reviews.ReviewInserted | controllers/reviewController.js:43-49 | an insert keeps every review and appends the new one |
| Reviews.ReviewStore.Create | models/Review.js:10-28 | `Review.create` inserts exactly when user, comment and a rating in 1..5 are present, and otherwise changes nothing |
| Reviews.AddReviewHandler | controllers/reviewController.js:4-60 | the handler's reply and collection are those of `AddReview` |
| Reviews.AddReviewCases | controllers/reviewController.js:9-59 | the guards run in order (product, purchase, duplicate, validation) and a refusal writes nothing; success inserts exactly one review with the request's fields |
| Reviews.AddReviewKeepsInvariants | controllers/reviewController.js:35-49 | every stored review stays valid and there is at most one per user and product |
| Reviews.AddReviewTwice | controllers/reviewController.js:35-41 | the same review sent again is refused as a duplicate |
| Reviews.ReviewsByProductSpec | controllers/reviewController.js:62-82 | empty for NaN or 0; otherwise every review of that product, each as often as stored, and no other, newest first |
| Wishlist.ProductKey | controllers/wishlistController.js:48 | a present product id has a non-empty string key |
| Wishlist.FindEntry | controllers/wishlistController.js:46-50 | absent exactly when this user has no entry with that key; otherwise the first one |
| Wishlist.RemovedAt | controllers/wishlistController.js:93-96 | deleting one entry removes exactly it and keeps the others in order |
| Wishlist.WishlistStore.Create | controllers/wishlistController.js:58-64 | `Wishlist.create` appends the entry |
| Wishlist.WishlistStore.FindOneAndDelete | controllers/wishlistController.js:93-96 | deletes the first match, if any, and otherwise changes nothing |
| Wishlist.AddToWishlistHandler | controllers/wishlistController.js:32-75 | the handler's reply and collection are those of `AddToWishlist`: 401, 400, "Already in wishlist", the catch's 500 when `price` does not cast to Number, or one insert |
| Wishlist.RemoveFromWishlistHandler | controllers/wishlistController.js:80-106 | the handler's reply and collection are those of `RemoveFromWishlist` |
| Wishlist.NoUserUnauthorized | controllers/wishlistController.js:11-15 | get, add and remove without a user answer 401 and change nothing |
| Wishlist.AddIdempotent | controllers/wishlistController.js:45-56 | after a successful add, a repeat add of the same `String(productId)` succeeds with "Already in wishlist" and inserts nothing, whatever its price |
| Wishlist.NumberAndTextAlike | controllers/wishlistController.js:48 | a number and its decimal string are the same product |
| Wishlist.AddKeepsOneEntryEach | controllers/wishlistController.js:45-74 | add keeps at most one entry per user and product; it succeeds exactly with a user, a product id and either an existing entry or a `price` the Number cast accepts, and then the product is listed; a refused cast of a new entry is the catch's 500 and writes nothing |
| Wishlist.RemoveTolerant | controllers/wishlistController.js:93-101 | remove succeeds whether or not the product is listed, leaves none of it, and never touches another user's entries |
| Wishlist.RemovedOnlyOne | controllers/wishlistController.js:93-96 | deleting the one entry of a user and product leaves none behind |
| Wishlist.FilterSkipsOther | controllers/wishlistController.js:93-96 | deleting one user's entry leaves another user's list as it was |
| Wishlist.AddThenRemove | controllers/wishlistController.js:58-96 | adding an unlisted product and removing it restores the wishlist, also when the add's price cast fails |
| Wishlist.GetWishlistSpec | controllers/wishlistController.js:17 | every entry of this user, each as often as stored, and none of another, newest first |
| AdminAuth.BearerToken | middleware/adminAuth.js:18 | `split(' ')[1]` is the text after "Bearer " up to the next space |
| AdminAuth.BearerTokenRoundTrip | middleware/adminAuth.js:14-18 | a token without spaces sent as "Bearer <token>" is read back whole |
| AdminAuth.RequireAdminCases | middleware/adminAuth.js:13-41 | 401 without a "Bearer " header or for a refused token; otherwise access exactly when the payload is `isAdmin` or carries the configured admin email, else 403 |
| AdminAuth.NoAdminEmailOnlyFlag | middleware/adminAuth.js:34-38 | with ADMIN_EMAIL unset or blank only an `isAdmin` payload gets through |
| AdminAuth.AdminLoginCases | controllers/adminAuthController.js:11-32 | 400 for a missing field; 500 when the server is not configured; otherwise success exactly when the email matches trimmed and ignoring case and the password matches exactly, else the same 401; success issues the admin claims for the configured email |
| AdminAuth.AdminLoginIgnoresCase | controllers/adminAuthController.js:23 | the address may be sent in any case and with surrounding white space |
| AdminAuth.LoginThenAccess | controllers/adminAuthController.js:29-32 | a token the login issues passes `requireAdmin` with the issued claims, when the two secrets agree |
| AdminAuth.GrantedEmailIsAdminEmail | controllers/adminAuthController.js:29 | the granted email also satisfies the middleware's ADMIN_EMAIL fallback |
| MongoConfig.StripKeyPrefix | config/db.js:15-17 | with an "=" and no "mongodb" start, the text after the first "=" is kept (later "=" signs too), trimmed; otherwise the input is trimmed |
| MongoConfig.KeyPrefixStripped | config/db.js:15-17 | `KEY=value` keeps the trimmed value |
| MongoConfig.RepairKeepsValid | config/db.js:20-22 | a URI with a correct scheme is left as it is |
| MongoConfig.RepairSingleSlash | config/db.js:21-22 | a single slash after the scheme's colon is doubled |
| MongoConfig.RepairSrvAnyCase | config/db.js:20 | the SRV scheme in any case is made lower case |
| MongoConfig.RepairIdempotent | config/db.js:20-22 | every repair that fires yields a correct scheme, and repairing twice is repairing once |
| MongoConfig.MissingColonNotRepaired | config/db.js:19-22 | "mongodb+srv//" without the colon stays invalid |
| MongoConfig.RepairEndsClean | config/db.js:20-22 | the repairs keep a trimmed end |
| MongoConfig.Preview | config/db.js:26 | the preview is the URI up to 80 characters, or its first 80 and "..." |
| MongoConfig.SchemeLength | config/db.js:25 | a valid scheme is 10 or 14 characters ending in "//" |
| MongoConfig.FirstDoubleSlash | config/db.js:37 | in a valid URI the first "//" is the scheme's |
| MongoConfig.RedactCredentials | config/db.js:38-41 | credentials `user:password` after the scheme lose their password |
| MongoConfig.MaskHidesPassword | config/db.js:31-43 | the log preview of `scheme user:password@host` is `scheme user:[REDACTED]@host` |
| MongoConfig.MaskWithoutAt | config/db.js:33-34 | a URI without "@" is logged as it is |
| MongoConfig.Prepare | config/db.js:10-46 | an empty URI is refused; an invalid scheme after clean-up is refused with its preview; the result is ready exactly when the URI is non-empty and its cleaned form has a correct scheme, and then it holds that cleaned URI and its masked preview |
| MongoConfig.PrepareIdempotent | config/db.js:14-28 | a cleaned URI is a fixed point of the clean-up |
| MongoConfig.ConnectWithRetry | config/db.js:59-74 | at most maxRetries attempts; returns on the first success, and rethrows the error of the maxRetries-th failure |
| MongoConfig.RetryOutcomeUnique | config/db.js:59-74 | the retry promise determines the outcome |
| MongoConfig.ConnectDb | config/db.js:9-74 | an unusable URI is refused before any attempt; otherwise the cleaned URI is tried as the retry loop promises |
| JsText.NatToString | utils/orderIdGenerator.js:17 | `String(n)` is a non-empty digit string |
| JsText.NatToStringValue | utils/orderIdGenerator.js:17 | printing then reading a number gives it back |
| JsText.NatToStringLength | utils/orderIdGenerator.js:17 | `String(n)` fits in k characters exactly when n < 10^k |
| JsText.PadStart | utils/orderIdGenerator.js:17 | `padStart` fills on the left up to the length and never truncates |
| JsText.LeadingZerosValue | utils/orderIdGenerator.js:17 | leading zeros do not change the value |
| JsText.SliceLast | utils/orderIdGenerator.js:13 | `slice(-n)` is the last n characters, or all of a shorter string |
| JsText.ParseIntDigits | utils/orderIdGenerator.js:13 | `parseInt` of a digit string is its value |
| JsText.ToLower | models/User.js:6 | lowers ASCII letters; keeps the length |
| JsText.TrimLowerCommute | models/User.js:6 | lowering then trimming equals trimming then lowering |
| JsText.TrimIdempotent | config/db.js:16-17 | trimming twice is trimming once |
| JsText.ToLowerIdempotent | models/User.js:6 | lowering twice is lowering once |
| JsText.IndexOfChar | config/db.js:15 | `indexOf` is the first position of the character, or -1 when it is absent |
| JsText.LastIndexOfChar | config/db.js:33 | `lastIndexOf` is the last position, or -1 when absent |
| JsText.IndexOfSub | config/db.js:37 | the first occurrence of a substring, or -1 when there is none |
| JsText.Split | middleware/adminAuth.js:18 | `split` gives at least one piece; the first piece ends before the first separator |
| JsText.JoinSplit | config/db.js:16 | joining the pieces of a split restores the string |
| JsText.AfterFirstSeparator | config/db.js:16 | `split('=').slice(1).join('=')` is the text after the first "=" |

## Left out

- Email delivery (`sendOtpEmail`, the mailer modules) is network I/O. Only its outcome is modelled: the mail was sent, skipped or failed.
- JWT signing, expiry and verification are function parameters. The model does not capture the token lifetimes ("7d", `ADMIN_TOKEN_TTL`) or the default secrets, which differ between files ('changeme' in the middleware, 'devsecret' in the admin controller).
- HMAC-SHA256 and bcrypt are uninterpreted. There is no hashing and no timing behaviour. The signature comparison is plain inequality, as in the code.
- Razorpay is a reply parameter: an order id and amount, or a failure. Its HTTP client is not modelled.
- Clock and randomness are parameters: `Date.now`, `new Date()`, `Math.random`. The local time zone of the monthly report is taken as UTC.
- Floating point is not modelled: totals are exact reals, `total * 100` is exact, and `Math.round` is modelled on reals.
- `Number(...)` casts and `parseInt` corner cases:
  - `Number(req.params.productId)` is an input that is already a number, or NaN;
  - non-integer product ids are compared as numbers;
  - the `Number` grammar itself is not modelled.
- An absent body or token field is the empty string. A non-string value in a string field is modelled only where the code branches on it (a non-string OTP or password in `controllers/authController.js`). It is not modelled for `payload.email` in `requireAdmin` or `body.email` in `adminLoginHandler`, which would throw and answer 401 or 500.
- The admin handlers' own catch returns `err.message` with 500, for example on an id that is not an ObjectId (a Mongoose CastError). In the model ids are positions, so this path is not modelled.
- `resolveOrderModel` (controllers/adminController.js:4) is not part of this model. The admin handlers work on the given order collection.
- routes/orderRoutes.js imports `{ Order }` by name from a CommonJS module whose schema has none of the router's fields (`email`, `razorpayOrderId`). The router draft is modelled over its own collection of `RouteOrder`s with its own field names, not over models/Order.js.
- The second GET /api/orders/my (server.js:471-484) never runs, because the route at server.js:330 answers first.
- GET /api/auth/me (server.js:309-326) is a plain lookup of the token's user and is not modelled.
- Concurrency is not modelled: each handler is one atomic step. This hides the read-then-write race in utils/orderIdGenerator.js:6-17 and in the duplicate checks of the review and wishlist handlers.
- Logging (`console.*`) and the retry delay (`setTimeout`, config/db.js:72) are not modelled.
- The catch at config/db.js:44-46 cannot be reached, because string slicing does not throw there, so it is not modelled.
- MongoConfig.ConnectWithRetry: a non-integer `maxRetries` is not modelled; the bound is an integer.
- Mongoose setters are assumed to normalise query filters as well as saved values. Sorting ties keep no particular order: the lemmas state only descending order and contents.
- JsText.ToLower: only the ASCII letters A-Z are lowered. JavaScript's `toLowerCase` also lowers every other Unicode capital and can lengthen a string ("İ", U+0130, becomes two code units), so every email key (NormalizeEmail, TokenEmail, the admin email fallback and the admin login comparison) agrees with the code only on ASCII capitals.
- UserModel.NormalizeIsNormal: "no upper-case letter" is proved only for A-Z, because JsText.ToLower lowers only ASCII.
- AdminAuth.RequireAdminCases: the payload's `isAdmin` claim is a boolean. A truthy non-boolean claim (1, "yes") that `if (payload.isAdmin)` also accepts has no counterpart.
- Checkout.CreateSucceedsIff: the Number-typed order fields (`total`, `subtotal`, `discount`, models/Order.js:12-14) are taken as already-cast numbers. A non-numeric value, which slips past `total <= 0` (a comparison with NaN is false) and which the schema's Number cast refuses at the save, has no counterpart.
- RouteOrders.BuildOrderFromPayload: likewise `subtotal`, `discount` and `total` are already-cast numbers; a non-numeric one has no counterpart.
- Wishlist.ProductKey: `String(productId)` is modelled only for integer numbers and strings. Non-integer numbers (`String(1.5)`), booleans and objects have no counterpart.
- Catalog CRUD, route wiring, environment loading and the bare schemas (Product, Otp) are not part of this model.

## Findings

| source | as written | input that shows it | evidently intended | confidence | as-written member | corrected member |
|---|---|---|---|---|---|---|
| utils/orderIdGenerator.js:13-17 | the next sequence is read from only the last four characters of the newest id, while `padStart(4)` writes five or more digits from 10000 on | a store whose newest id of the year is `EE<year>10000`, next to `EE<year>0001`: the next id is `EE<year>0001` again, which the unique index refuses | the sequence keeps counting past 9999 (10001, …) | medium, not executed | OrderIdGenerator.SequenceWrapsAfter9999 | OrderIdGenerator.FixedNextAfter |
