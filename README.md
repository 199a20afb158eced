# Gift shop backend: a Dafny model

This project models the business rules of a Spring Boot gift-shop backend. Members register and
log in, charge points, keep a wish list and order product options ("gifts"). Each order takes
stock from the option and points from the member, then sends a best-effort KakaoTalk
"message to me".

The model covers these parts of the backend:

- **Name validators.** The generic `NameValidator` and its two specialised copies,
  `ProductNameValidator` (at most 15 characters, 카카오 refused by default) and
  `OptionNameValidator` (at most 50 characters). Each is an imperative method that collects
  messages. It is proved equal to one pure specification, `NameValidator.Errors`, and the
  properties of the validators are proved about that specification.
- **The services.** `CategoryService`, `ProductService`, `OptionService`, `MemberService`,
  `AuthService`, `WishService` and `OrderService` act on one `Store.Database` object. Its fields
  hold one table per repository, a map from id to row, and the identity counter. Every
  state-changing operation is a method that `modifies` the database. Its postcondition equals a
  pure `...Spec` function of the old tables. The spec function states the operation's outcomes:
  which error in which order, exactly which rows change, and which invariants are kept.
- **The controllers with logic of their own.** `OptionController` repeats the service's rules
  and is proved to behave exactly like `OptionService`. `WishController.addWish` returns an
  existing wish (200) or creates one (201).
- **The gates.** `LoginMemberArgumentResolver` turns the Authorization header into the current
  member or Unauthorized. `GlobalExceptionHandler` turns exceptions into HTTP statuses.
- **The notification.** `KakaoNotificationService` sends through a `KakaoMessageClient` object.
  The client records the requests it is given and may be unreachable.

Exceptions are the `Common.Error` datatype:

| kind | Java exception | status |
|---|---|---|
| `IllegalArgument` | IllegalArgumentException | 400 |
| `NotFound` | NoSuchElementException | 404 |
| `Unauthorized` | UnauthorizedException | 401 |
| `Forbidden` | ForbiddenException | 403 |
| `Internal` | any exception without a handler | 500 (Spring's default) |

`Internal` covers a derived query that finds several rows where it expects at most one, and an
option whose product row is missing.

Messages the modelled code builds are `Text(...)`. A message thrown inside `Option.java` or
`Member.java` is `Unseen(origin)`, because those files are not part of this model. Their rules
come from `OptionTest` and `MemberTest`: stock is taken only up to what is there, and points are
charged and deducted only in positive amounts, never below zero.

`OrderService.createOrder` has no compensation step and no transaction boundary, so when the
points cannot be deducted the stock taken for the order stays taken (`OrderService.CreateOrderSpec`,
`GiftScenarios.UnpaidOrderKeepsStockTaken`). Order placement follows the code in every step but
one: the amount charged is the full price times the quantity, where the code's `int`
multiplication wraps around (see "## Findings").

## Model

| member | source | states |
|---|---|---|
| NameValidator.PatternMatchesIffAllAllowed | src/main/java/gift/common/NameValidator.java:8-9 | `ALLOWED_PATTERN` matches a whole string exactly when every character is in the allowed class |
| NameValidator.Utf16Length | src/main/java/gift/common/NameValidator.java:26 | `length()` counts UTF-16 units: between the character count and twice it, and equal to it for BMP-only text |
| NameValidator.IndexOfNonWhitespace | src/main/java/gift/common/NameValidator.java:21 | the first position that is not white space (the length when there is none): every earlier character is white space and the one there is not |
| NameValidator.IsBlankIffNoNonWhitespace | src/main/java/gift/common/NameValidator.java:21 | `isBlank()` holds exactly when that position is the length, i.e. the name is empty or all white space |
| NameValidator.ContainsAt | src/main/java/gift/common/NameValidator.java:34 | an occurrence of the substring at any position makes `contains` true |
| NameValidator.ContainsIffOccurs | src/main/java/gift/common/NameValidator.java:34 | `contains("카카오")` holds exactly when 카카오 occurs at some position of the name |
| NameValidator.Violations | src/main/java/gift/common/NameValidator.java:18-39 | null or blank gives only "required"; otherwise there is a length failure iff length > max, a character failure iff some character is not allowed, and a 카카오 failure iff that check is on and the name contains it; failures are in that fixed order, at most three |
| NameValidator.Errors | src/main/java/gift/common/NameValidator.java:18-39 | a null or blank name gives exactly the one "is required." message; any name gives at most three messages |
| NameValidator.ErrorMessages | src/main/java/gift/common/NameValidator.java:22-35 | one message per failed check |
| NameValidator.MessageAt | src/main/java/gift/common/NameValidator.java:22-35 | the i-th message is the message of the i-th failed check, in the same order |
| NameValidator.Validate | src/main/java/gift/common/NameValidator.java:18-39 | the accumulating method returns exactly the messages of `Violations` |
| NameValidator.MessagesSnoc | src/main/java/gift/common/NameValidator.java:26-36 | a further failed check appends exactly its own message to the list so far |
| NameValidator.ValidateDefault | src/main/java/gift/common/NameValidator.java:14-16 | the three-argument overload equals the four-argument one with the 카카오 check off and never yields the 카카오 message |
| NameValidator.TailMarks | src/main/java/gift/common/NameValidator.java:22-35 | the four message texts differ at a fixed position after the label |
| NameValidator.MessagesDistinct | src/main/java/gift/common/NameValidator.java:22-35 | different failed checks give different messages, so the list tells which checks failed |
| NameValidator.NoErrorsIffAccepted | src/main/java/gift/common/NameValidator.java:38 | the list is empty iff the name is non-blank, within length, all allowed and not refused for 카카오 |
| NameValidator.TooLongAndInvalidGivesTwoErrors | src/main/java/gift/common/NameValidator.java:26-32 | a too-long name with a bad character gets the length message and then the character message |
| ProductNameValidator.Validate | src/main/java/gift/product/ProductNameValidator.java:19-40 | equals the generic validator for "Product name", 15, with the 카카오 check on iff not `allowKakao` |
| ProductNameValidator.ValidateDefault | src/main/java/gift/product/ProductNameValidator.java:15-17 | the one-argument overload refuses 카카오, and that message comes last |
| ProductNameValidator.LongNameWithBangGetsTwoErrors | src/main/java/gift/product/ProductNameValidator.java:27-33 | a name over 15 characters containing `!` gets the length and the character messages first |
| ProductNameValidator.RequiredText | src/main/java/gift/product/ProductNameValidator.java:22-25 | the literal "required" message is the generic one for "Product name" |
| ProductNameValidator.TooLongText | src/main/java/gift/product/ProductNameValidator.java:27-29 | the literal length message is the generic one with maximum 15 |
| OptionNameValidator.Validate | src/main/java/gift/option/OptionNameValidator.java:21-38 | equals the generic three-argument validator for "Option name", 50 |
| OptionNameValidator.NeverKakaoError | src/main/java/gift/option/OptionNameValidator.java:21-38 | no option name ever gets the 카카오 message |
| OptionNameValidator.FiftyOneBangs | src/main/java/gift/option/OptionNameValidator.java:29-35 | 51 `!` give exactly the length message and the character message |
| OptionNameValidator.RequiredText | src/main/java/gift/option/OptionNameValidator.java:24-27 | the literal "required" message is the generic one for "Option name" |
| OptionNameValidator.TooLongText | src/main/java/gift/option/OptionNameValidator.java:29-31 | the literal length message is the generic one with maximum 50 |
| Common.NatString | src/main/java/gift/category/CategoryService.java:22 | an id renders as a non-empty digit string without a leading zero |
| Common.NatStringRoundTrip | src/main/java/gift/common/NameValidator.java:27 | reading the rendered digits back gives the number |
| Common.WrapInt | src/main/java/gift/order/OrderService.java:39 | an `int` expression keeps its value when it is in range, and otherwise wraps modulo 2^32 |
| Common.JoinLength | src/main/java/gift/product/ProductService.java:57 | `String.join(", ", errors)` has the messages' total length plus one separator per gap; no messages give "" and a single message is the exception text unchanged |
| Common.JoinSnoc | src/main/java/gift/product/ProductService.java:57 | joining one more message appends the separator and that message, so the joined text is every message in order with ", " between neighbours |
| Common.DecimalString | src/main/java/gift/category/CategoryService.java:22 | `"..." + id` renders a minus sign exactly for a negative id, then at least one decimal digit |
| Common.DecimalStringRoundTrip | src/main/java/gift/common/NameValidator.java:27 | reading a rendered number back, sign included, gives the number |
| Store.Pick | src/main/java/gift/auth/AuthService.java:28-29 | a query returning `Optional` has no row iff nothing matches, one row iff exactly one matches, and fails iff two match |
| Store.PickRow | src/main/java/gift/wish/WishService.java:27-29 | running such a query gives that outcome |
| Store.Restrict | src/main/java/gift/wish/WishService.java:23-25 | a filtering query returns exactly the matching rows, unchanged |
| Store.Database.GenerateId | src/main/java/gift/member/MemberService.java:28 | `save` of a new row takes the next id, which is fresh in every table |
| CategoryService.FindAll | src/main/java/gift/category/CategoryService.java:16-18 | every stored category and nothing else |
| CategoryService.FindById | src/main/java/gift/category/CategoryService.java:20-23 | the row iff it exists, else NotFound naming the id |
| CategoryService.CreateSpec | src/main/java/gift/category/CategoryService.java:25-27 | adds exactly one category, built from the request, under a fresh id |
| CategoryService.Create | src/main/java/gift/category/CategoryService.java:25-27 | the method updates the category table in place exactly as `CreateSpec` says and keeps the tables well formed |
| CategoryService.UpdateSpec | src/main/java/gift/category/CategoryService.java:29-33 | NotFound and no change for an unknown id; otherwise only that row gets the request's four fields |
| CategoryService.Update | src/main/java/gift/category/CategoryService.java:29-33 | the method updates the category table in place exactly as `UpdateSpec` says |
| CategoryService.DeleteSpec | src/main/java/gift/category/CategoryService.java:35-37 | removes that id if present; every other category keeps its values and no other table changes; never fails |
| CategoryService.Delete | src/main/java/gift/category/CategoryService.java:35-37 | the method removes the row in place exactly as `DeleteSpec` says |
| CategoryService.UpdateThenFind | src/main/java/gift/category/CategoryService.java:29-33 | reading an updated category back gives the request's fields |
| ProductService.NameCheck | src/main/java/gift/product/ProductService.java:54-59 | passes iff the validator finds nothing (so no 카카오); otherwise IllegalArgument with the messages joined by ", " |
| ProductService.ValidateName | src/main/java/gift/product/ProductService.java:54-59 | the method gives that outcome |
| ProductService.FindAll | src/main/java/gift/product/ProductService.java:23-29 | every stored product and nothing else |
| ProductService.FindById | src/main/java/gift/product/ProductService.java:31-34 | the row iff it exists, else NotFound naming the id |
| ProductService.CreateSpec | src/main/java/gift/product/ProductService.java:36-40 | name first, then category; any failure saves nothing; success adds exactly that product |
| ProductService.Create | src/main/java/gift/product/ProductService.java:36-40 | the method checks and saves in place exactly as `CreateSpec` says |
| ProductService.UpdateSpec | src/main/java/gift/product/ProductService.java:42-48 | name, then category, then product; any failure changes nothing; success replaces exactly that product's four fields |
| ProductService.Update | src/main/java/gift/product/ProductService.java:42-48 | the method checks and updates in place exactly as `UpdateSpec` says |
| ProductService.DeleteSpec | src/main/java/gift/product/ProductService.java:50-52 | removes that id if present; every other product keeps its values and no other table changes |
| ProductService.Delete | src/main/java/gift/product/ProductService.java:50-52 | the method removes the row in place exactly as `DeleteSpec` says |
| ProductService.KakaoNameRefused | src/main/java/gift/product/ProductService.java:54-58 | a name containing 카카오 makes create and update fail IllegalArgument whatever else holds |
| OptionService.NameCheck | src/main/java/gift/option/OptionService.java:63-68 | passes iff the validator for "Option name", 50 finds nothing; otherwise the joined messages |
| OptionService.ValidateName | src/main/java/gift/option/OptionService.java:63-68 | the method gives that outcome |
| OptionService.OptionsOf | src/main/java/gift/option/OptionService.java:23 | exactly the options of that product |
| OptionService.FindByProductId | src/main/java/gift/option/OptionService.java:21-24 | NotFound for an unknown product, else exactly its options |
| OptionService.FindById | src/main/java/gift/option/OptionService.java:26-29 | the row iff it exists, else NotFound naming the id |
| OptionService.CreateSpec | src/main/java/gift/option/OptionService.java:31-38 | name, then product, then duplicate name; any failure saves nothing; success adds exactly one option; names stay unique per product |
| OptionService.Create | src/main/java/gift/option/OptionService.java:31-38 | the method checks and saves in place exactly as `CreateSpec` says |
| OptionService.DeleteSpec | src/main/java/gift/option/OptionService.java:40-55 | product, then last-option refusal, then missing or foreign option; success removes exactly that option; no product that had an option loses its last one |
| OptionService.Delete | src/main/java/gift/option/OptionService.java:40-55 | the method checks and removes in place exactly as `DeleteSpec` says |
| OptionService.RemovalKeepsSomeOption | src/main/java/gift/option/OptionService.java:43-46 | removing one of at least two options leaves every product with an option |
| OptionService.SubtractFromOption | src/test/java/gift/option/OptionTest.java:22-58 | stock is taken iff it suffices, and never goes negative |
| OptionService.SubtractQuantitySpec | src/main/java/gift/option/OptionService.java:57-61 | NotFound for an unknown option and IllegalArgument for a quantity above the stock, each with nothing saved; otherwise the stock drops by exactly the quantity |
| OptionService.SubtractQuantity | src/main/java/gift/option/OptionService.java:57-61 | the method takes the stock in place exactly as `SubtractQuantitySpec` says |
| OptionService.SubtractTwice | src/test/java/gift/option/OptionTest.java:22-40 | two subtractions equal one subtraction of the sum |
| OptionController.ValidateName | src/main/java/gift/option/OptionController.java:88-93 | the controller's check equals the service's |
| OptionController.GetOptions | src/main/java/gift/option/OptionController.java:35-43 | equals the service's `findByProductId` |
| OptionController.CreateOption | src/main/java/gift/option/OptionController.java:45-63 | outcome and table effect equal the service's `create` |
| OptionController.DeleteOption | src/main/java/gift/option/OptionController.java:65-86 | outcome and table effect equal the service's `delete` |
| MemberService.NewMember | src/test/java/gift/member/MemberTest.java:142-148 | a new member has the given email and password, no points and no Kakao token |
| MemberService.ChargeMember | src/test/java/gift/member/MemberTest.java:16-53 | succeeds iff the amount is positive, adding exactly it |
| MemberService.DeductMember | src/test/java/gift/member/MemberTest.java:60-119 | succeeds iff 0 < amount <= points, leaving a non-negative balance |
| MemberService.FindAll | src/main/java/gift/member/MemberService.java:15-17 | every stored member and nothing else |
| MemberService.FindById | src/main/java/gift/member/MemberService.java:19-22 | the row iff it exists, else IllegalArgument (not NotFound) naming the id |
| MemberService.CreateSpec | src/main/java/gift/member/MemberService.java:24-29 | a registered email fails with nothing saved; otherwise exactly one new member; emails stay unique |
| MemberService.Create | src/main/java/gift/member/MemberService.java:24-29 | the method checks and saves in place exactly as `CreateSpec` says |
| MemberService.UpdateSpec | src/main/java/gift/member/MemberService.java:31-35 | unknown id fails with no change; otherwise only email and password of that member change |
| MemberService.Update | src/main/java/gift/member/MemberService.java:31-35 | the method updates in place exactly as `UpdateSpec` says |
| MemberService.ChargePointSpec | src/main/java/gift/member/MemberService.java:37-41 | unknown id and a non-positive amount each fail with IllegalArgument and no change; otherwise that balance grows by exactly the amount |
| MemberService.ChargePoint | src/main/java/gift/member/MemberService.java:37-41 | the method charges in place exactly as `ChargePointSpec` says |
| MemberService.DeleteSpec | src/main/java/gift/member/MemberService.java:43-45 | removes that id if present; every other member keeps its values and no other table changes |
| MemberService.Delete | src/main/java/gift/member/MemberService.java:43-45 | the method removes the row in place exactly as `DeleteSpec` says |
| MemberService.ChargesAccumulate | src/test/java/gift/member/MemberTest.java:28-35 | two charges equal one charge of the sum |
| MemberService.UpdateCanDuplicateEmail | src/main/java/gift/member/MemberService.java:31-35 | unlike `create`, `update` can give two members the same email |
| AuthService.MemberByEmail | src/main/java/gift/auth/AuthService.java:28 | `findByEmail` finds nothing iff the email is not registered |
| AuthService.RegisterSpec | src/main/java/gift/auth/AuthService.java:17-25 | a registered email fails with the table unchanged; otherwise one member is added and the token for the email returned |
| AuthService.Register | src/main/java/gift/auth/AuthService.java:17-25 | the method checks and saves in place exactly as `RegisterSpec` says, returning its token |
| AuthService.LoginSpec | src/main/java/gift/auth/AuthService.java:27-37 | succeeds iff the one member with that email has exactly that password, returning the email's token; unknown email, missing and wrong password give the same error |
| AuthService.Login | src/main/java/gift/auth/AuthService.java:27-37 | the read-only method gives that outcome |
| AuthService.RegisterThenLogin | src/main/java/gift/auth/AuthService.java:17-37 | after registering, logging in with the same credentials succeeds with the same token |
| AuthService.NoPasswordNeverLogsIn | src/main/java/gift/auth/AuthService.java:31-33 | a member without a password can never log in |
| AuthService.DuplicateEmailBreaksLogin | src/main/java/gift/auth/AuthService.java:28-29 | with two members sharing an email, logging in with it fails with no mapped status |
| LoginMemberArgumentResolver.SupportsParameter | src/main/java/gift/auth/LoginMemberArgumentResolver.java:20-23 | applies iff the parameter has `@LoginMember` and a Member type |
| LoginMemberArgumentResolver.ResolveArgument | src/main/java/gift/auth/LoginMemberArgumentResolver.java:26-43 | no header gives Unauthorized; the raw header goes to the extractor; null from it gives Unauthorized; else exactly the extracted member; no other error |
| LoginMemberArgumentResolver.MissingHeaderIgnoresExtractor | src/main/java/gift/auth/LoginMemberArgumentResolver.java:32-35 | without a header the extractor's answer does not matter |
| WishService.FindByMemberId | src/main/java/gift/wish/WishService.java:23-25 | exactly that member's wishes |
| WishService.WishIds | src/main/java/gift/wish/WishService.java:27-29 | the ids of exactly the wishes of that member for that product |
| WishService.FindByMemberIdAndProductId | src/main/java/gift/wish/WishService.java:27-29 | none iff no such wish; one only when it is the only one |
| WishService.AddWishSpec | src/main/java/gift/wish/WishService.java:31-34 | unknown product is NotFound with nothing saved; otherwise one new wish of that member for that product |
| WishService.AddWish | src/main/java/gift/wish/WishService.java:31-34 | the method checks and saves in place exactly as `AddWishSpec` says |
| WishService.RemoveWishSpec | src/main/java/gift/wish/WishService.java:36-45 | unknown wish is NotFound before ownership; another member's wish is Forbidden; only the owner's wish is deleted |
| WishService.RemoveWish | src/main/java/gift/wish/WishService.java:36-45 | the method checks and removes in place exactly as `RemoveWishSpec` says |
| WishService.OthersWishesAreSafe | src/main/java/gift/wish/WishService.java:40-42 | removing another member's wish fails and leaves the table as it was |
| WishService.AddWishTwiceDuplicates | src/main/java/gift/wish/WishService.java:31-34 | the service alone stores a second copy of the same wish |
| WishController.GetWishes | src/main/java/gift/wish/WishController.java:28-35 | the caller's own wishes, all of them and nobody else's |
| WishController.AddWishSpec | src/main/java/gift/wish/WishController.java:37-50 | existing wish: 200 and no change, even before the product check; otherwise the service's result with 201; wishes stay unique |
| WishController.AddWish | src/main/java/gift/wish/WishController.java:37-50 | the endpoint behaves as that specification |
| WishController.RemoveWish | src/main/java/gift/wish/WishController.java:52-59 | the service's removal for the authenticated member's id |
| WishController.AddWishIdempotent | src/main/java/gift/wish/WishController.java:42-49 | a second identical post changes nothing and answers 200 with the first post's wish |
| WishController.NewWishIsCreated | src/main/java/gift/wish/WishController.java:47-49 | a new wish for an existing product answers 201 and adds exactly it |
| KakaoNotificationService.KakaoMessageClient.SendToMe | src/main/java/gift/order/KakaoNotificationService.java:21 | the client records one request and fails iff the API is unreachable |
| KakaoNotificationService.Notices | src/main/java/gift/order/KakaoNotificationService.java:15-24 | no request without a Kakao token; otherwise exactly one, with that token, the order and the product |
| KakaoNotificationService.SendOrderNotification | src/main/java/gift/order/KakaoNotificationService.java:15-24 | returns normally whether or not the client fails; its only effect is those requests |
| OrderService.FindByMemberId | src/main/java/gift/order/OrderService.java:30-32 | exactly that member's orders |
| OrderService.AmountAsWritten | src/main/java/gift/order/OrderService.java:39 | the code's amount: the product wrapped to 32 bits |
| OrderService.Amount | src/main/java/gift/order/OrderService.java:39 | the intended amount: at least one unit's price, and the code's value when it does not overflow |
| OrderService.OverflowUndercharges | src/main/java/gift/order/OrderService.java:39-40 | price 65536 and quantity 65537 wrap to 65536, which 65536 points can pay |
| OrderService.CreateOrderSpec | src/main/java/gift/order/OrderService.java:34-50 | unknown option NotFound and short stock IllegalArgument with nothing saved; unpaid order IllegalArgument with the stock still taken; success takes the stock and the amount in points and saves exactly one order |
| OrderService.CreateOrderKeepsBalances | src/main/java/gift/order/OrderService.java:34-50 | whether it succeeds or fails, an order never leaves a stock or a point balance below zero |
| OrderService.OrderNotices | src/main/java/gift/order/OrderService.java:46-47 | one Kakao request, only after a successful order of a member with a token |
| OrderService.CreateOrder | src/main/java/gift/order/OrderService.java:34-50 | the method follows `CreateOrderSpec`, whatever the Kakao client does |
| GlobalExceptionHandler.Handle | src/main/java/gift/common/GlobalExceptionHandler.java:16-34 | 400 and 404 carry the message; 401 and 403 have no body; anything else is 500; each status names one kind |
| GlobalExceptionHandler.Status | src/main/java/gift/common/GlobalExceptionHandler.java:16-34 | success status iff the call returned normally, else the handler's status |
| GiftScenarios.Fixture | src/test/java/gift/GiftAcceptanceTest.java:27-63 | the fixture tables are well formed |
| GiftScenarios.SecondOrderExceedsRemainingStock | src/test/java/gift/GiftAcceptanceTest.java:27-35 | of 10 in stock, 7 answers 201, then 5 answers 400 and 3 stay |
| GiftScenarios.OrdersAccumulate | src/test/java/gift/GiftAcceptanceTest.java:51-63 | 3 and 4 answer 201, a further 4 answers 400, the last 3 answer 201 |
| GiftScenarios.UnknownOptionIsNotFound | src/test/java/gift/GiftAcceptanceTest.java:44-49 | an unknown option answers 404 |
| GiftScenarios.UnpaidOrderKeepsStockTaken | src/test/java/gift/order/OrderControllerTest.java:150-164 | too few points answer 400, saving no order and leaving the stock taken |
| GiftScenarios.MissingHeaderIsUnauthorized | src/main/java/gift/auth/LoginMemberArgumentResolver.java:32-35 | a request without an Authorization header answers 401, whatever the token store says |
| GiftScenarios.InvalidTokenIsUnauthorized | src/test/java/gift/order/OrderControllerTest.java:114-122 | a header whose token does not resolve ("Bearer invalid-token") answers 401 |
| GiftScenarios.WishLifecycle | src/test/java/gift/wish/WishControllerTest.java:66-159 | add 201, add again 200, another member's delete 403, the owner's delete 204 |

## Left out

- JWT issuing and checking are not part of this model. The token issuer is a function parameter
  of `register` and `login`. The header-to-member extractor is a function parameter of
  `resolveArgument`. Signatures, expiry and the "Bearer " prefix are not modelled.
- Concurrency, locking and transactions are not modelled. Each service call runs alone on the
  tables.
- The Kakao HTTP call is only a request log plus a reachability flag. What the client sends on
  the wire is not modelled.
- Spring MVC wiring is not modelled: `ResponseEntity` bodies, `URI`s, JSON mapping, paging
  (queries return the unpaged rows) and `@Valid` bean validation of the request records.
  `OrderController` and `MemberController` only delegate, so they are not modelled.
- `Option.java`, `Member.java`, `Product.java` and `Wish.java` are not part of this model. The
  rules of their methods come from `OptionTest` and `MemberTest`, and their messages are
  `Unseen`.
- OptionService.SubtractFromOption: requires a positive quantity. The request record's
  validation and `Option.subtractQuantity` are not part of this model, so the zero and negative
  cases are not modelled.
- OrderService.CreateOrderSpec: requires a positive quantity, for the same reason. It also
  requires that the member is a stored row, as the LoginMember resolver provides.
- OrderService.CreateOrderSpec: charges the unwrapped amount (`OrderService.Amount`); when price
  times quantity exceeds 2^31 - 1 the code charges `OrderService.AmountAsWritten`, the 32-bit
  wrapped product, which the model states separately (see "## Findings").
- MemberService.ChargeMember: adds with unbounded integers. `Member.chargePoint` is not part of
  this model, so a point balance past 2^31 - 1 is not modelled.
- Store.Database.GenerateId: one counter serves every table. Only the freshness of ids is
  modelled; the actual id sequence per table is not.
- Foreign-key constraints are not modelled. A category or product can be deleted while rows
  still refer to it. An order whose option points to a missing product fails `Internal`.
- Regular-expression matching is modelled as the allowed-character predicate.
  `Character.isWhitespace` is modelled as the list of characters it accepts.
- The long message literals are written as two concatenated literals in the model. This does
  not change their value.

## Findings

| source | as written | input that shows it | evidently intended | confidence | as-written member | corrected member |
|---|---|---|---|---|---|---|
| src/main/java/gift/order/OrderService.java:39 | `getPrice() * quantity` multiplies two `int`s, so a large order's amount wraps modulo 2^32 | price 65536 and quantity 65537 (stock at least 65537): the amount wraps to 65536, so a member holding 65536 points gets 65537 units | the amount is the full price times the quantity, and an order the member cannot pay is refused | high; not executed | OrderService.AmountAsWritten (with OrderService.OverflowUndercharges) | OrderService.Amount, used by OrderService.CreateOrderSpec |
