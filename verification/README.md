# BOMS: a model of its protocols and text rules

BOMS is a bakery ordering platform: a Go backend over PostgreSQL and Redis, and a Next.js front end.
This project models the parts of it whose correctness spans several requests or two languages, and
proves what they keep over every run or every input.

`dafny verify dfyconfig.toml` checks the whole project.

| file | models |
|---|---|
| `SessionJson.dfy` | the JSON text of a stored session, and the substring search that stands for a field comparison |
| `SessionStore.dfy` | the Redis session store: keys, rotation script, SCAN loop |
| `SessionDecode.dfy` | reading a stored session back from its JSON text |
| `SessionProtocol.dfy` | logins, racing refreshes, logout, revocation and expiry, interleaved |
| `SessionScan.dfy` | mass revocation page by page, with other requests between the pages |
| `PhoneClaims.dfy` | the transactions that write phones, statement by statement, with their locks |
| `Pricing.dfy` | pricing a cart in wrapping int64 arithmetic, discounts, totals |
| `Checkout.dfy` | cart edits, the quote and checkout, one request at a time, on a mutable database |
| `CheckoutEffects.dfy` | what cart and checkout requests leave, told by rows, codes and orders |
| `CheckoutProtocol.dfy` | many checkouts, cart edits and manager edits, interleaved |
| `OrderStatus.dfy` | staff and baker status patches with stale reads and a compare-and-swap |
| `RateLimit.dfy` | the sliding-window limiter over whole runs of calls |
| `Pickup.dfy`, `Calendar.dfy` | pickup slots in both languages, over the Gregorian calendar |
| `Slug.dfy` | slug derivation in both languages |
| `VietnamPhone.dfy` | the phone normal form in both languages |
| `Cloudinary.dfy` | public ids and transform rewriting of delivery links |
| `Dollars.dfy`, `Decimal.dfy` | dollar amounts typed, parsed and printed |
| `Pagination.dfy` | the dashboard's page window |
| `Options.dfy`, `WhiteSpace.dfy` | shared vocabulary |

A protocol is a `State`, a `Step` datatype with `Enabled` and `Apply`, and runs as sequences of steps;
histories that the program does not store (exchanged tokens, the owner of a cart row, every status an
order has had) are part of the state. Code that changes things in place is a class or a loop proved
against a specification function, and the lemmas are about that function.

## Where the code and its documentation part

- **Rotation needle.** The rotation script finds the token id with a substring search in JSON text.
  That equals comparing the field, for all records, exactly for ids whose every character JSON leaves as
  it is. Go also escapes `<`, `>`, `&` and two line separators, so being free of quotes and backslashes is
  not enough (`SessionJson.AngleBracketIdIsRefused`). The UUIDs the service mints are all right.
- **Revocation and refresh.** `session_store.go:154` scans and deletes page by page. A refresh that rotates its
  session between two pages can leave the new one behind (`SessionScan.RotationOutrunsScan`). A login alive when
  the scan begins survives it exactly when such a refresh succeeds during the scan and its new session is still
  there after.
- **One phone, one account.** An admin edit of the name alone reads the stored phone, does not claim it and
  writes it back. A self-service edit that runs from start to commit inside that window frees the number,
  another account takes it, and the write back makes two active accounts share it
  (`PhoneClaims.LostUpdateShares`). If the other account has claimed the number and not yet committed, the write
  back comes first and the pair appears at the claimer's own commit, fresh and locked as it is
  (`PhoneClaims.OverrunClaimShares`). In every reachable state a step adds a sharing pair exactly when it commits
  a phone that another active account holds and its own does not; that phone is then stale and unclaimed, or its
  claim was overrun, and a claim is overrun only by a stale commit earlier in the run. Runs without self-service
  edits, or where none overlaps another transaction on its account, never add a pair.
- **Rows added during a checkout.** A checkout lists the cart's rows, writes the order and then deletes every row
  the cart has by then; inserting a row takes no lock. A row added in between is deleted without being ordered
  (`CheckoutProtocol.AddedRowIsLost`), and no other row is lost (`CheckoutProtocol.CommitLosesExactly`).
- **Default pickup slot.** `pickup.ts:54` says the default always passes checkout. The formatter drops
  seconds, so it passes exactly when `now` is a whole minute or the lead time lands outside opening hours (and
  the year has four digits).
- **Phone white space.** The two phone rules are documented as one. JavaScript's `\s` knows more spaces than
  Go's (a no-break space, for one). They part exactly on spellings of a mobile number with such a space: the form
  takes them and the backend refuses.
- **Page window.** Near the end of the list the block starts at the current page, so on the first two pages
  of it one or both left neighbours are hidden, unlike everywhere else in the list.
- **Version segments.** The front end takes 0 to 9 as digits of a Cloudinary version, the backend any Unicode
  decimal digit. They find different public ids exactly when some segment is a version to one of them only and
  both skip everything before it.

## Model

| member | source | states |
|---|---|---|
| SessionJson.EncodedIsQuiet | backend/internal/domain/session/session.go:12-18 | inside any encoded free text, whatever bytes it was made from, nothing reads like the end of the first key |
| SessionJson.RecordIsQuiet | backend/internal/domain/session/session.go:12-18 | past the name of the first key nothing in any stored record reads like that key's end, so user agent and IP cannot forge it |
| SessionJson.NeedleReadsFirstValue | backend/internal/adapter/repository/redis/session_store.go:27-34 | for every record and every id the search answers whether the encoded first value starts with the id and a closing quote |
| SessionJson.NeedleIsFieldEquality | backend/internal/adapter/repository/redis/session_store.go:31-34 | for an id of self-encoding characters the substring search is equality with the stored token id, whatever else is stored |
| SessionJson.NeedleExactlyForPlainIds | backend/internal/adapter/repository/redis/session_store.go:31-34 | search and field comparison agree on all records if and only if every character of the id encodes to itself |
| SessionJson.SearchIsExactFor | backend/internal/adapter/repository/redis/session_store.go:31-34 | search and field comparison agree on all records if and only if the id has no control character, quote, backslash, angle bracket, ampersand or line or paragraph separator |
| SessionJson.RecordText | backend/internal/domain/session/session.go:12-18 | the JSON text of every record, field names, order and the omitted flag included |
| SessionJson.EscapedIdMisses | backend/internal/adapter/repository/redis/session_store.go:31-34 | an id with an escaped character is not found even in the record that carries it |
| SessionJson.BackslashesDrift | backend/internal/adapter/repository/redis/session_store.go:31-34 | the doubled backslashes of an encoded id never line up with the id |
| SessionJson.AngleBracketIdIsRefused | backend/internal/adapter/repository/redis/session_store.go:31-34 | an id without quote or backslash that the search still refuses |
| SessionStore.ScanReachesExactlyTheUser | backend/internal/adapter/repository/redis/session_store.go:51-57 | the scan prefix of one user matches a session key exactly when the key is that user's |
| SessionStore.SessionKeyInjective | backend/internal/adapter/repository/redis/session_store.go:51-53 | two session keys are one exactly when user and session are |
| SessionStore.ScriptRefinesFields | backend/internal/adapter/repository/redis/session_store.go:21-38 | on encoded records the script's reply and result are those of a compare-and-swap on the token id field |
| SessionStore.RotateRefinesFields | backend/internal/adapter/repository/redis/session_store.go:114-152 | Rotate on stored text, with any trimmed id of self-encoding characters, compares and swaps records |
| SessionStore.UuidRotationRefinesFields | backend/internal/adapter/repository/redis/session_store.go:114-152 | so it does with every UUID, the ids the service mints |
| SessionStore.LoadReadsWhatWasStored | backend/internal/adapter/repository/redis/session_store.go:82-99 | a stored record is loaded back, invalid bytes replaced, until it expires and is not found after |
| SessionStore.RotationLeaves | backend/internal/adapter/repository/redis/session_store.go:114-152 | done, missing or refused, exactly by the old key and the id in it; once done the new key answers the new record for the TTL, at least one millisecond, and nothing after, the old key is gone and no other key changed |
| SessionStore.StampedMeans | backend/internal/adapter/repository/redis/session_store.go:67-69 | a zero creation time becomes the clock's and the rest of the record stays |
| WhiteSpace.TrimSpaceMeans | backend/internal/adapter/repository/redis/session_store.go:118-121 | the expected id is trimmed of all white space at its ends and of nothing else |
| SessionDecode.TextDecodes | backend/internal/adapter/repository/redis/session_store.go:95-98 | any encoded free text decodes to itself, invalid bytes replaced, and leaves exactly what followed its closing quote |
| SessionDecode.UnmarshalUndoesMarshal | backend/internal/adapter/repository/redis/session_store.go:68-98 | decoding an encoded record gives the record back, whatever its free texts hold |
| SessionDecode.TextDeterminesRecord | backend/internal/adapter/repository/redis/session_store.go:68-72 | two records with one stored text differ at most in invalid bytes |
| SessionStore.Store.Create | backend/internal/adapter/repository/redis/session_store.go:60-80 | stores the encoded record, a zero creation time replaced by the clock's, under the user's key with the TTL, or refuses empty ids and changes nothing |
| SessionStore.Store.Get | backend/internal/adapter/repository/redis/session_store.go:82-99 | answers the decoded record until it expires, not found after, a bad record as such, and refuses empty ids |
| SessionStore.Store.Delete | backend/internal/adapter/repository/redis/session_store.go:102-112 | removes that key and no other |
| SessionStore.Store.Rotate | backend/internal/adapter/repository/redis/session_store.go:114-152 | outcome and new contents are those of the rotation specification, every refusal included |
| SessionStore.Store.RunScript | backend/internal/adapter/repository/redis/session_store.go:21-38 | the commands of the script, one by one, give the specified reply and database |
| SessionStore.Store.DeleteAllForUser | backend/internal/adapter/repository/redis/session_store.go:155-177 | the cursor loop leaves exactly the keys outside the user's scan, for any pages SCAN may return |
| SessionProtocol.StepKeepsInv | backend/internal/usecase/auth.go:112-243 | every login, refresh, logout, revocation, clock and eviction step keeps the session invariant |
| SessionProtocol.CreateSessionMeans | backend/internal/usecase/auth.go:130-141 | a login's session carries the minted token id, starts its own lineage, lives exactly its TTL and touches no other session |
| SessionProtocol.RotateMeans | backend/internal/usecase/auth.go:198-214 | an exchange moves the session to the new key under the new token id, in the old lineage, for exactly a full TTL, and touches no other session |
| SessionProtocol.FailedRotateMeans | backend/internal/usecase/auth.go:207-214 | any other refresh changes no session and goes on to revoke its user's |
| SessionProtocol.SignMeans | backend/internal/usecase/auth.go:216-243 | one token is issued for the session just made, and it is accepted for exactly its own TTL |
| SessionProtocol.LookUpUserMeans | backend/internal/usecase/auth.go:189-197 | a refresh goes on exactly when its user is active, and else revokes |
| SessionProtocol.LogoutIsFinal | backend/internal/usecase/auth.go:259-301 | a logout ends that session and no other, and no token of it can be exchanged in any continuation |
| SessionProtocol.RevokeAllMeans | backend/internal/adapter/repository/redis/session_store.go:155-177 | exactly the sessions of the user go |
| SessionProtocol.EvictMeans | backend/internal/adapter/repository/redis/session_store.go:73-76 | expiry takes only sessions that are no longer live |
| SessionProtocol.LoginIssues | backend/internal/usecase/auth.go:112-166 | from any reachable state an active user can log in and is issued a token for the session it gets |
| SessionProtocol.IssuedTokenRefreshes | backend/internal/usecase/auth.go:177-243 | until the session or the token expires one refresh with it goes through and is issued the next token |
| SessionProtocol.LineagesAreLinear | backend/internal/usecase/auth.go:130-141 | over every run a login has at most one live session, live token ids are distinct and unexchanged, no token id is exchanged twice |
| SessionProtocol.RevocationIsFinal | backend/internal/adapter/repository/redis/session_store.go:155-177 | after a revocation taken as one step every login that was alive is dead in all continuations, refreshes already past the user lookup included, and no token of it is ever exchanged |
| SessionScan.ScanRemovesWhatItFound | backend/internal/adapter/repository/redis/session_store.go:155-177 | with any requests between the pages, every session there when the scan began is gone when it ends |
| SessionScan.LoginSurvivesExactly | backend/internal/adapter/repository/redis/session_store.go:155-177 | a login alive when the scan began survives it if and only if a refresh rotated it during the scan and the session it moved to is still there |
| SessionScan.QuietScanIsFinal | backend/internal/adapter/repository/redis/session_store.go:155-177 | a scan during which no refresh of a login succeeds ends that login in every continuation |
| SessionScan.RefreshingIsReached | backend/internal/usecase/auth.go:112-197 | the state the escaping run starts from is reached by a login and a refresh past its user lookup |
| SessionScan.RotationOutrunsScan | backend/internal/adapter/repository/redis/session_store.go:155-177 | a run in which a refresh rotates before the only page and its login survives |
| SessionProtocol.ReplayRevokesEverything | backend/internal/usecase/auth.go:189-214 | a refresh with an exchanged token rotates nothing and then removes exactly the sessions of its user, whatever runs between its steps |
| SessionProtocol.AtMostOneRefreshWins | backend/internal/adapter/repository/redis/session_store.go:21-38 | however many refreshes race with one token, at most one exchanges it |
| SessionProtocol.CurrentTokenRotates | backend/internal/usecase/auth.go:198-243 | a live, unexchanged token does rotate: its session moves on in the same lineage and the token is spent |
| PhoneClaims.StepKeepsShape | backend/internal/usecase/phone.go:32-47 | every statement keeps account rows, created accounts and claimed numbers with one holder each |
| PhoneClaims.RunKeepsShape | backend/internal/usecase/phone.go:32-47 | so does every run, stale commits included |
| PhoneClaims.HeldMeans | backend/internal/adapter/repository/postgres/sql/query/user.sql:145-158 | a number is held exactly by another account that is not disabled |
| PhoneClaims.EnableCommits | backend/internal/usecase/admin_user.go:305-355 | a committed enable leaves its account active, in its role, with its phone or, when released, with none, and no other account changed |
| PhoneClaims.CreateCommits | backend/internal/usecase/admin_user.go:81-101 | a committed create leaves a new active account with the role and phone asked for |
| PhoneClaims.EditCommits | backend/internal/usecase/admin_user.go:221-303 | a committed edit leaves the phone it ended with and an admin's new role, nothing else |
| PhoneClaims.DisableMeans | backend/internal/adapter/repository/postgres/user_repository.go:165-175 | a disabled account keeps role and phone |
| PhoneClaims.SoloEnable | backend/internal/usecase/admin_user.go:305-355 | alone, an enable ends with the account active and its phone kept unless an active account has it |
| PhoneClaims.SoloAdminEdit | backend/internal/usecase/admin_user.go:221-303 | alone, an admin's edit is refused exactly when the new phone is taken and else leaves phone and role as asked |
| PhoneClaims.SoloSelfEdit | backend/internal/usecase/me.go:79-141 | alone, a self-service edit does the same with the role untouched |
| PhoneClaims.SoloCreate | backend/internal/usecase/admin_user.go:57-101 | alone, a create is refused exactly when the phone is taken and else leaves the account |
| PhoneClaims.ClaimsBreakExactly | backend/internal/adapter/repository/postgres/user_repository.go:365-381 | while every number found free under its lock is still free, the next step overruns a claim if and only if it is a stale commit that takes a claimed number |
| PhoneClaims.OverrunNeedsStaleCommit | backend/internal/adapter/repository/postgres/user_repository.go:365-381 | a run that leaves a claim overrun has a stale commit of a claimed number in it, which the lemma points to |
| PhoneClaims.SharingGrowsExactly | backend/internal/usecase/admin_user.go:269-303 | in every reachable state a step adds a pair of active accounts sharing a phone if and only if it commits a phone another active account holds and its own does not, stale and unclaimed or with its claim overrun |
| PhoneClaims.SharingNeverGrows | backend/internal/usecase/phone.go:32-47 | over every interleaving whose commits are fresh no new pair ever shares a phone |
| PhoneClaims.PairsNeverGrow | backend/internal/usecase/me.go:79-98 | from any accounts, legacy duplicates included, while no self-service edit overlaps a transaction on its account, sharing pairs never grow and uniqueness is kept |
| PhoneClaims.AdminPairsNeverGrow | backend/internal/usecase/admin_user.go:57-355 | over every interleaving of admin create, edit, role change, enable and disable, sharing pairs never grow, without condition |
| PhoneClaims.LostUpdateShares | backend/internal/usecase/admin_user.go:269-303 | a run in which a self-service edit inside an admin edit's window makes two active accounts share a phone |
| PhoneClaims.OverrunClaimShares | backend/internal/usecase/admin_user.go:269-303 | a run in which that write back overruns a claim, so that uniqueness breaks at a fresh commit that holds its number's lock |
| Pricing.RowsByIDs | backend/internal/adapter/repository/postgres/sql/query/product.sql:177-191 | the batched query returns every wanted row that can be sold, each once, and no row that was not wanted |
| Pricing.IndexRows | backend/internal/usecase/cart_pricing.go:60-78 | the loop's map finds every row by its id and nothing else |
| Pricing.LinesShowCatalog | backend/internal/usecase/cart_pricing.go:82-110 | an available line is of its item, exactly when the item's own table sells its target, with that row's name, slug, price and total; the lines are those of the items that name a target or have no known type, in cart order |
| Pricing.PriceLines | backend/internal/usecase/cart_pricing.go:43-113 | two batched queries, two maps and one pass give those lines, as if each item were looked up alone |
| Pricing.RedeemableMeans | backend/internal/domain/discount/redeem.go:6-28 | a code is redeemable exactly when it is not deleted, active, inside its dates, under its cap and its minimum is met |
| Pricing.RefusalMeans | backend/internal/domain/discount/redeem.go:6-28 | each refusal, by the first of those conditions that fails |
| Pricing.SummaryMeans | backend/internal/usecase/cart_pricing.go:115-145 | by the fields of the code: one that applies takes its percentage or amount within cap and subtotal, any other takes nothing; the cart is ready when something in it sells for a non-zero sum |
| Pricing.SummarizeCart | backend/internal/usecase/cart_pricing.go:115-145 | the accumulating loop gives those totals |
| Pricing.WrapAdds | backend/internal/usecase/cart_pricing.go:118-126 | wrapping at every addition is wrapping the mathematical sum once |
| Pricing.DiscountBound | backend/internal/domain/discount/redeem.go:30-46 | a valid code takes its percentage rounded down or its fixed amount, at most its cap and the subtotal, and the product fits int64 |
| Pricing.TotalsAreExact | backend/internal/usecase/cart_pricing.go:115-145 | with 50 lines of 99 units at up to 18 633 074 821 928 cents every line total, running sum and percentage product fits int64, and subtotal, discount and total balance in plain integers |
| Pricing.ExactPriceIsTight | backend/internal/domain/discount/redeem.go:30-40 | one cent more per unit and a full cart leaves int64 |
| Checkout.PricedLinesMultiply | backend/internal/usecase/cart_pricing.go:80-110 | every priced line is of a cart item and its total is unit price times quantity |
| Checkout.AcceptedOrderBalances | backend/internal/usecase/order.go:46-92 | what pricing decides and the tables accept has a positive subtotal that is the sum of its lines, a discount within it and a balancing total |
| Checkout.BalancedOrderIsExact | backend/internal/usecase/order.go:60-92 | within the exact range a balanced order adds up in plain integers |
| Checkout.QuoteIsCharge | backend/internal/usecase/cart.go:374-423 | from the state a quote leaves, checkout succeeds exactly when the quote was ready with every line available and the tables take its figures, charges the quoted totals, and a failure leaves everything as it was |
| Checkout.QuoteIsAccepted | backend/internal/adapter/repository/postgres/sql/schema/001_initial_schema.sql:243-270 | within the exact range the tables have nothing to refuse in a quote |
| CheckoutEffects.QuoteMeans | backend/internal/usecase/cart.go:263-306 | the quote shows the cart's rows at the catalog's prices, keeps the code exactly while it applies and then takes off what it takes; only the cart's code can change |
| CheckoutEffects.ChargeLeaves | backend/internal/usecase/order.go:40-110 | a checkout that goes through leaves one order of the cart's rows at the catalog's prices, an empty cart without code, one use counted, and nothing else changed |
| CheckoutEffects.ChargeTakes | backend/internal/usecase/order.go:60-69 | the order's subtotal is the sum of its lines, its discount what its code takes off, its total the rest |
| CheckoutEffects.ChargeRefuses | backend/internal/usecase/cart.go:374-423 | each refusal of a checkout, by the first condition that fails, and none leaves a change |
| CheckoutEffects.AddAccepted | backend/internal/usecase/cart.go:213-239 | an add is refused exactly when its target's units would pass 99 or it needs a fifty-first row, and else raises that row or appends one |
| CheckoutEffects.AddMeans | backend/internal/usecase/cart.go:47-103 | what an add answers and leaves, each refusal in order |
| CheckoutEffects.UpdateMeans | backend/internal/usecase/cart.go:105-131 | an update sets the row with this id and leaves every other row in place, or answers not found |
| CheckoutEffects.RemoveMeans | backend/internal/usecase/cart.go:133-145 | a removal takes out that row and keeps the others in order |
| CheckoutEffects.RemoveRefused | backend/internal/usecase/cart.go:133-145 | without such a row it answers not found and leaves the rows |
| Checkout.AddMovesUnits | backend/internal/usecase/cart.go:213-239 | an accepted add, merged or appended, changes the units of its target by the quantity asked for and of no other |
| Checkout.AddKeepsBounds | backend/internal/usecase/cart.go:47-103 | an accepted add merges or appends within the caps, keeping one row per product or combo |
| Checkout.QuoteKeepsItems | backend/internal/usecase/cart.go:263-287 | answering with the quote never touches the cart's rows |
| Checkout.EditsKeepBounds | backend/internal/usecase/cart.go:47-145 | however one customer's requests follow each other, whatever catalog and clock each meets, a cart keeps at most 50 rows, 1 to 99 units each and one row per target |
| Checkout.WithoutWithin | backend/internal/usecase/cart.go:133-145 | removing a row keeps exactly the rows with another id |
| Checkout.Bakery.GetOrCreateCart | backend/internal/usecase/cart.go:195-211 | an empty cart for a customer without one, nothing otherwise |
| Checkout.Bakery.BuildCartResponse | backend/internal/usecase/cart.go:263-306 | answers the specified quote and detaches a code that no longer applies, changing nothing else |
| Checkout.Bakery.GetCart | backend/internal/usecase/cart.go:39-45 | the quote of the customer's cart, made if missing |
| Checkout.Bakery.AddItem | backend/internal/usecase/cart.go:47-103 | merge, append or the source's refusal, then the quote, each with the exact database it leaves, a code that no longer applies detached |
| Checkout.Bakery.UpdateItem | backend/internal/usecase/cart.go:105-131 | sets that row's quantity and answers the quote, which may detach the code, or answers not found |
| Checkout.Bakery.RemoveItem | backend/internal/usecase/cart.go:133-145 | deletes that row and answers the quote, which may detach the code, or answers not found |
| Checkout.Bakery.ApplyDiscount | backend/internal/usecase/cart.go:147-181 | attaches the code exactly when something in the cart sells for a non-zero sum and the code's fields let it apply to that sum, and answers the discounted quote |
| Checkout.Bakery.RemoveDiscount | backend/internal/usecase/cart.go:183-193 | detaches the code and answers the plain quote |
| Checkout.Bakery.PricedCartForCheckout | backend/internal/usecase/cart.go:374-423 | answers the lines and totals or the first refusal that applies |
| Checkout.Bakery.OrderItems | backend/internal/usecase/order.go:77-92 | the loop copies every priced line, in order |
| Checkout.Bakery.CheckoutTx | backend/internal/usecase/order.go:46-106 | the statements of a checkout leave what the specification charges |
| Checkout.Bakery.PlaceOrder | backend/internal/adapter/repository/postgres/pool.go:119-136 | a failed checkout is rolled back whole: an exhausted code leaves no order and an untouched cart |
| CheckoutProtocol.StepKeepsLocks | backend/internal/adapter/repository/postgres/cart_repository.go:37-46 | no step gives a cart row or a code row two holders |
| CheckoutProtocol.InsideStepKeepsInv | backend/internal/adapter/repository/postgres/pool.go:119-136 | until it commits no step of a checkout changes a cart, a code or an order |
| CheckoutProtocol.StepKeepsInv | backend/internal/usecase/order.go:40-110 | every step of every checkout, cart edit and manager edit keeps the invariant |
| CheckoutProtocol.RowsAreConsumedOnce | backend/internal/adapter/repository/postgres/cart_repository.go:37-46 | over every interleaving committed orders share no cart row, no consumed row is in a cart, and quantities stay between 1 and 99 |
| CheckoutProtocol.CommittedOrdersBalance | backend/internal/usecase/order.go:60-92 | every order any run commits balances, and exactly so within the exact range |
| CheckoutProtocol.UseCountsOrders | backend/internal/adapter/repository/postgres/discount_code_repository.go:63-73 | over every run a code's use count grows by exactly the number of orders that carry it and never passes its cap |
| CheckoutProtocol.SoloCheckoutIsCharge | backend/internal/usecase/order.go:40-110 | with nothing else running, every run of one checkout's own steps leaves the database alone until the checkout ends and then as the sequential checkout leaves it |
| CheckoutProtocol.SoloCheckoutEnds | backend/internal/usecase/order.go:40-110 | such a run can always be carried on to the checkout's end |
| CheckoutProtocol.CartEditMeans | backend/internal/usecase/cart.go:47-193 | the rows or code each cart edit leaves, and that nothing else changes |
| CheckoutProtocol.AddRowNeverWaits | backend/internal/usecase/cart.go:90-102 | an insert into a cart waits for no checkout |
| CheckoutProtocol.CodeEditMeans | backend/internal/usecase/manager_discount_code.go:103-175 | a manager's edit changes that code and nothing else |
| CheckoutProtocol.RollbackMeans | backend/internal/adapter/repository/postgres/pool.go:119-136 | a rolled back checkout is gone and left nothing |
| CheckoutProtocol.CommitLosesExactly | backend/internal/usecase/order.go:93-101 | a commit loses a cart row exactly when its emptying statement found it and its listing statement had not |
| CheckoutProtocol.AddedRowIsLost | backend/internal/usecase/order.go:93-101 | a row added in between is lost, neither ordered nor in the cart |
| OrderStatus.Orders.UpdateStatus | backend/internal/adapter/repository/postgres/order_repository.go:168-192 | swaps the status exactly when it is still the expected one and touches no other order |
| OrderStatus.Orders.PatchStatus | backend/internal/usecase/baker_order.go:107-142 | answers not found, invalid transition or the new status, for staff and baker, with the exact orders it leaves |
| OrderStatus.SoloPatchIsPatch | backend/internal/usecase/staff_order.go:104-136 | a read is possible exactly when the sequential patch succeeds, and an uninterrupted read and swap leave what it leaves, as one win |
| OrderStatus.LegalPathShape | backend/internal/domain/order/status.go:4-39 | a path of allowed moves never repeats, is at most five long, ends at cancelled or fulfilled, and is fulfilled one way only |
| OrderStatus.HistoriesAreLegal | backend/internal/usecase/staff_order.go:104-150 | over every interleaving of patches with stale reads each order's history is such a path |
| OrderStatus.AtMostOnePatchWins | backend/internal/adapter/repository/postgres/order_repository.go:168-192 | of the patches that raced from one observed status of an order at most one went through |
| OrderStatus.MovesInFull | backend/internal/domain/order/status.go:4-39 | the moves of staff and baker, in full |
| OrderStatus.PathsInFull | backend/internal/domain/order/status.go:4-39 | the nine legal paths: the way to fulfilled, its beginnings, and a cancellation out of each |
| OrderStatus.LegalPathHappens | backend/internal/usecase/staff_order.go:104-136 | every legal path is taken by some run |
| OrderStatus.HistoriesAreExactlyLegalPaths | backend/internal/usecase/staff_order.go:104-136 | the histories orders can have are exactly the legal paths |
| OrderStatus.PatchMeans | backend/internal/usecase/baker_order.go:107-142 | not found, refused or moved, exactly as existence, visibility and moves say |
| RateLimit.Limiter.Allow | backend/internal/middleware/redis_ratelimit.go:21-34 | reply and key after the call are those of the script |
| RateLimit.RunMirrors | backend/internal/middleware/redis_ratelimit.go:21-34 | after any well-timed run the set holds exactly accepted calls and every accepted call still in the window |
| RateLimit.LimiterFollowsRule | backend/internal/middleware/redis_ratelimit.go:21-34 | a call is accepted exactly when fewer than the limit were accepted in the window that ends with it |
| RateLimit.SpanHoldsAtMostLimit | backend/internal/middleware/redis_ratelimit.go:21-34 | answers that follow the rule put at most the limit of accepts into any half-open span of one window |
| RateLimit.WindowHoldsAtMostLimit | backend/internal/middleware/redis_ratelimit.go:21-34 | so no run of calls gets more than the limit into one window's length |
| RateLimit.TtlChangesNothing | backend/internal/middleware/redis_ratelimit.go:29-33 | while Redis's clock stays in step with the callers' the key's expiry never changes an answer |
| RateLimit.ClocksMatterExactly | backend/internal/middleware/redis_ratelimit.go:29-33 | of two calls under a limit of one the second is answered by the rule if and only if the clocks are in step |
| Calendar.DayNumbersCount | frontend/src/lib/validation/pickup.ts:20-25 | the next calendar day has the next day number, and 1 January 1970 has number 0 |
| Calendar.CivilOf | frontend/src/lib/validation/pickup.ts:20-25 | a valid date whose day number is the given day |
| Calendar.DatesAreDistinct | frontend/src/lib/validation/pickup.ts:20-25 | no two dates share a day number |
| Pickup.FormatThenParse | frontend/src/lib/validation/pickup.ts:35-51 | parsing a formatted slot gives the instant floored to its minute in years 1000 to 9999, and outside them nothing |
| Pickup.ParseThenFormat | frontend/src/lib/validation/pickup.ts:35-51 | formatting a parsed slot gives its text back if and only if the year is 1000 or later and midnight was not written as 24:00 |
| Pickup.WallClock.SetUTCDate | frontend/src/lib/validation/pickup.ts:65-65 | moving to another date of the month, its end rolled over, shifts the clock by whole days |
| Pickup.WallClock.SetUTCHours | frontend/src/lib/validation/pickup.ts:63-66 | the same day, at that hour, at minute zero, on a whole minute |
| Pickup.DefaultPickupLocalInputValue | frontend/src/lib/validation/pickup.ts:57-69 | the text of the first open instant at or after the lead time |
| Pickup.FirstOpenIsEarliest | frontend/src/lib/validation/pickup.ts:57-69 | that instant is open and no open instant lies between |
| Pickup.ZeroTimeIsClosed | backend/internal/domain/order/pickup.go:18-20 | the zero-time guard never decides |
| Pickup.TextChecksAgree | backend/internal/domain/order/pickup.go:17-38 | the form's check of any text is that it parses to an instant the backend accepts |
| Pickup.MinuteChecksAgree | frontend/src/lib/validation/pickup.ts:85-100 | of any instant the form checks its whole minute as the backend does |
| Pickup.DefaultIsEarliest | frontend/src/lib/validation/pickup.ts:53-69 | on a whole minute the backend accepts the default and no earlier instant, and the form accepts its text in every year it can write |
| Pickup.DefaultPasses | frontend/src/lib/validation/pickup.ts:53-69 | for any now the default passes if and only if its year has four digits and now is a whole minute or the lead time lands outside opening hours |
| Pickup.DefaultCanBeRefused | frontend/src/lib/validation/pickup.ts:53-69 | an instant for which the default is refused |
| Pickup.OpenInUtc | backend/internal/domain/order/pickup.go:7-14 | open is one to eleven in the morning, UTC |
| Pickup.ValidInPlainNumbers | backend/internal/domain/order/pickup.go:17-38 | valid is two hours to fourteen days ahead, in those hours |
| Pickup.TextInPlainNumbers | frontend/src/lib/validation/pickup.ts:20-37 | the text of one instant, in full |
| Slug.CollapseDoubles | backend/internal/domain/catalog/slug.go:40-42 | the collapse loop, on any text, ends with what the form's one replacement gives |
| Slug.SlugFromName | backend/internal/domain/catalog/slug.go:32-47 | from the same folded text the backend's slug is the form's, its error exactly the form's empty text |
| Slug.CleanMatches | backend/internal/domain/catalog/slug.go:16-16 | the slug pattern matches exactly non-empty words joined by single hyphens |
| Slug.SlugsAreStable | frontend/src/lib/validation/catalog.ts:17-32 | a derived slug matches the pattern, has at most 128 characters and derives to itself |
| Slug.SlugsAreTheGrammar | frontend/src/lib/validation/catalog.ts:3-10 | the texts that derive to themselves are exactly those the form's slug field accepts |
| Slug.SlugKeepsLetters | frontend/src/lib/validation/catalog.ts:17-32 | a slug keeps the name's letters and digits in order, and all of them if and only if it needs no cut at 128 |
| Slug.SlugIsItsWords | frontend/src/lib/validation/catalog.ts:17-27 | before any cut a slug is the name's runs of letters and digits joined by single hyphens |
| VietnamPhone.RulesPartExactly | backend/internal/shared/utils/phone.go:35-44 | the two rules part if and only if the text is digits, separators and spaces, its digits spell a mobile number, and one space is JavaScript's only; then the backend refuses |
| VietnamPhone.NoBreakSpaceSplitsThem | frontend/src/lib/validation/phone.ts:27-27 | every mobile number has a spelling the form takes and the backend refuses |
| VietnamPhone.SpellingsReachOneForm | backend/internal/shared/utils/phone.go:21-44 | the texts that reach a number's stored form are exactly its spellings: trunk zeros, 84 or 0084 before it, any separators |
| VietnamPhone.NormalizingIsIdempotent | frontend/src/lib/validation/phone.ts:52-58 | a stored form normalizes to itself in both languages |
| VietnamPhone.DisplayNormalizesBack | frontend/src/lib/validation/phone.ts:46-73 | a stored number is shown as +84 and three groups of three, and that text normalizes back to it |
| VietnamPhone.MobileMeans | frontend/src/lib/validation/phone.ts:18-19 | a mobile number is one of thirty-six listed prefixes and seven digits |
| VietnamPhone.PhoneAlphabet | backend/internal/shared/utils/phone.go:17-17 | digits, space, point, parentheses, plus and hyphen are accepted by both rules |
| VietnamPhone.LettersAreRefused | backend/internal/shared/utils/phone.go:17-17 | a letter is refused by both |
| VietnamPhone.JsOnlySpacesInFull | frontend/src/lib/validation/phone.ts:27-27 | the spaces only JavaScript knows, by code point |
| Cloudinary.SplitUndoesJoin | frontend/src/lib/cloudinary/config.ts:74-88 | joining slash-free segments and splitting gives them back |
| Cloudinary.CloudinaryPublicIdPath | frontend/src/lib/cloudinary/config.ts:73-89 | the index loop drops exactly the leading empty, transform and version segments |
| Cloudinary.PublicIdIsStable | frontend/src/lib/cloudinary/config.ts:73-89 | a public id found behind transforms is found again behind any other transform, with either digit test |
| Cloudinary.DigitTestsPartExactly | backend/internal/domain/media/cloudinary.go:76-104 | front end and backend find different public ids if and only if some segment is a version to one of them only and both skip every segment before it |
| Cloudinary.DigitTestsAgree | backend/internal/domain/media/cloudinary.go:76-104 | so they find one public id in any text on whose characters their digit tests agree |
| Cloudinary.ForeignDigitSplitsThem | backend/internal/domain/media/cloudinary.go:94-104 | a digit only one of them knows moves the public id |
| Cloudinary.RewriteAgain | frontend/src/lib/cloudinary/config.ts:152-174 | a rewritten link is still a delivery link with the same head and the same public id |
| Cloudinary.LastWidthWins | frontend/src/lib/cloudinary/config.ts:152-174 | rewriting any link for one width and then another is rewriting it for the other |
| Cloudinary.SkippedMeans | frontend/src/lib/cloudinary/config.ts:37-49 | the segments in front of a public id are the empty ones, versions, and any with a comma or underscore |
| Cloudinary.RewriteMeans | frontend/src/lib/cloudinary/config.ts:152-174 | the text of a rewritten link: its head, the transforms, the width and its public id, or the link itself when it has none |
| Cloudinary.OthersAreLeft | frontend/src/lib/cloudinary/config.ts:156-161 | no link stays no link and a link to another host is left as it is |
| Cloudinary.WidthsDiffer | frontend/src/lib/cloudinary/config.ts:152-174 | different widths give different links |
| Decimal.ReadPrint | frontend/src/lib/validation/catalog.ts:80-88 | reading a printed whole number gives it back |
| Dollars.ParseUndoesFormat | frontend/src/lib/validation/catalog.ts:74-89 | parsing a printed amount gives it back exactly for 0 up to 10^14 cents and is refused for every other |
| Dollars.DraftsSurvive | frontend/src/lib/validation/catalog.ts:68-89 | every non-empty draft the field keeps parses, is kept again unchanged, and printing it keeps its cents |
| Dollars.FieldKeepsWhatParses | frontend/src/lib/validation/catalog.ts:50-71 | the field keeps exactly what parses and the empty text |
| Dollars.PointedInput | frontend/src/lib/validation/catalog.ts:50-82 | digits, a point and digits are cents exactly with one to twelve before and at most two after, a single decimal counting tens |
| Dollars.WholeInput | frontend/src/lib/validation/catalog.ts:50-82 | one to twelve digits alone are whole dollars |
| Dollars.OtherInput | frontend/src/lib/validation/catalog.ts:50-82 | any other character left, or a second point, is no amount |
| Dollars.DecorationIsDropped | frontend/src/lib/validation/catalog.ts:58-61 | surrounding space, one leading dollar sign and commas are dropped, and nothing else |
| Pagination.Items.PushPageRange | frontend/src/lib/pagination/dashboard-pagination.ts:75-83 | appends exactly the pages of the range, none when it is empty |
| Pagination.BuildPaginationWindow | frontend/src/lib/pagination/dashboard-pagination.ts:86-142 | all pages up to seven, else eight entries near an end and nine between, from page 1 to the last, the clamped page among them, neighbours consecutive or an ellipsis that hides a page; both neighbours shown except in the two places named, and an ellipsis exactly past seven pages |
| Pagination.NumbersIncrease | frontend/src/lib/pagination/dashboard-pagination.ts:86-142 | page numbers strictly increase along any such window |
| Pagination.EveryPageIsPlaced | frontend/src/lib/pagination/dashboard-pagination.ts:86-142 | every page is shown or lies strictly between the pages around an ellipsis |

## Left out

- PostgreSQL and Redis are taken at their word: READ COMMITTED, row and advisory locks held to the end of
  the transaction, one Redis command or script at a time. Foreign-key locks and the collisions of the
  advisory lock's hash only make transactions wait longer and are not modelled.
- SessionProtocol.RevocationIsFinal: mass revocation is one step here; `SessionScan.LoginSurvivesExactly` says what
  the scan's pages leave when other requests run between them.
- SessionStore.Store.DeleteAllForUser: no other command runs between the pages (`SessionScan` has those), user ids
  have no glob characters (they are UUIDs), and a key present throughout the scan is in one of its pages.
- SessionStore.Store.Create: a TTL is at least one millisecond; the client library reads a shorter one its own way.
- SessionStore.Store.Get: decodes the layout the encoder writes. Go's decoder also takes other field orders and white
  space, and reads a timestamp's date, which here stays text; Redis errors are left out.
- SessionProtocol.LineagesAreLinear: ids are fresh values and tokens unforgeable; password hashing, JWT signing
  and access tokens are not part of this model.
- Checkout.EditsKeepBounds: the 50-row cap is for one customer's edits in sequence; in the source the count and
  the insert are separate statements.
- CheckoutProtocol.StepKeepsInv: a manager's edit of a code is one step, and the catalog a checkout prices with is
  arbitrary; order status, snapshots of the code's text and timestamps are not kept. Quantities handed to cart
  edits are within the request validation's 1 to 99.
- Checkout.QuoteIsCharge: the tables' own checks are a third condition; `Checkout.QuoteIsAccepted` says where they
  have nothing to refuse.
- PhoneClaims.AdminPairsNeverGrow: registration writes no phone and development seeding does not claim the
  phones it writes; both are taken as initial states. A role change is an admin edit with a new role.
- RateLimit.LimiterFollowsRule: a callers' clock that does not run backwards, Redis's own clock in step with it as
  `RateLimit.InStep` says, and a member per call; the fail-open path, response headers and the choice of key are not
  part of this model.
- Slug.SlugFromName: starts from the folded text. The two foldings differ (the backend removes non-spacing
  marks, the form all marks) and are library behaviour; lower-casing is modelled for A to Z.
- Pickup.FormatThenParse: instants are whole milliseconds within the calendar's range; Go's nanoseconds and the
  localized display formats are not modelled.
- Pickup.ParseThenFormat: a date that does not exist is refused, as ECMAScript's date-time format has it; engines
  such as V8 roll 30 February over into March instead.
- Cloudinary.LastWidthWins: links are spelled the way URL parsing leaves them (`https`, the bare host, no dot
  segments); other spellings of the same URL, and the folder check built on the public id, are not modelled.
- VietnamPhone.SpellingsReachOneForm: invalid UTF-8 is not modelled.
- HTTP handlers, mapping of responses, audit logging, media signing, catalog maintenance, list and search
  endpoints, React components.
