# User/order CRUD backend: handlers, auth gate and error normalizer in Dafny

This project models the request logic of a small Go HTTP service that serves
users and their orders (gin for routing, GORM over PostgreSQL for storage,
bcrypt for passwords, JWT for bearer tokens). Three pieces are modelled:

- **Resource handlers** (`internal/handlers/user.go`, `internal/handlers/order.go`).
  The database is a `Store` class. It holds the users table and the orders
  table, each a sequence in ascending primary-key order, plus the two serial
  counters that hand out ids. The handlers that write (`CreateUser`,
  `UpdateUser`, `DeleteUser`, `CreateOrder`) are methods that modify the store.
  Each states its response and the whole new state for every branch. The
  read-only handlers (`GetUsers`, `GetUserByID`, `GetOrders`) are functions of
  the table rows. A handler's result is a `Response`: an HTTP status plus a
  JSON body.
- **Auth gate** (`internal/middleware/auth.go`). This is a pure decision on the
  `Authorization` header. The header must start with the exact prefix
  `"Bearer "`, which is stripped. The rest goes to a verification predicate
  `verify`, which stands for JWT parsing and signature checking with the
  configured secret.
- **Error normalizer** (`internal/middleware/error_handler.go`). This is a pure
  decision taken after the downstream chain has run. It looks at the status
  already set and at the errors recorded on the context. It writes either
  nothing or `{code: status, message: first error}`.

Supporting modules:

- `Wrappers`: `Option`.
- `Seqs`: stands for the query primitives. `Filter` is WHERE, `FirstIndex` is
  `First`, `Window` is OFFSET/LIMIT.
- `Strconv`: Go's `strconv.Atoi`.
- `Models`: the records of `internal/models`.
- `Http`: status codes, response bodies and `DefaultQuery`.
- `Database`: the store.

Assumptions stated in the model:

- **Row order.** Rows come back in ascending id order. The list query has no
  ORDER BY, so pagination needs some fixed order.
- **Ids.** Ids come from serial counters starting at 1 and are never reused.
  Inserts always succeed: the source ignores the errors of `Create`.
- **Path ids.** GORM reads a path id that `strconv.Atoi` accepts as a primary
  key. Any other path id goes to the database as a raw SQL condition. What
  the database makes of that condition is the parameter `raw`: a query error,
  or a predicate on rows (see "## Findings").
- **Updates.** GORM's struct `Updates` skips zero-valued fields, so an empty
  name, an empty email or age 0 leaves that column unchanged
  (`UserHandlers.ApplyUpdates`).
- **Pagination.** The OFFSET/LIMIT window follows GORM's clause rules. A
  non-positive offset skips nothing, a negative limit means no limit, and any
  other limit caps the row count. The pagination lemmas are stated for
  page ≥ 1 and limit ≥ 1, where these rules do not matter.
- **Offset arithmetic.** `(page - 1) * limit` is computed in Go's 64-bit `int`
  and wraps (`UserHandlers.WrapInt64`).
- **Foreign inputs become parameters.** JSON binding is an `Option` input:
  `None` means binding failed. bcrypt's output is the parameter `hashed`.
  `time.Now()` is the parameter `now`. A storage failure in `GetOrders` is the
  flag `fault`. A price is a float64 that the handlers only copy, kept as its
  64-bit pattern.

The normalizer only acts on errors recorded with `c.Error`. None of the
modelled handlers or the auth gate records one: they write their
`{"error": ...}` bodies directly. So on the modelled routes the normalizer
writes nothing, which is the `ErrorHandler` case with an empty error list.

Two behaviours of the code worth knowing:

- `GetUsers` does not fall back to the default for a malformed query
  parameter. `strconv.Atoi`'s error is discarded, so a present but
  non-numeric value reads as 0.
- `UpdateUser` does not overwrite with zero values. GORM skips them.

## Model

| member | source | states |
|---|---|---|
| `Strconv.Atoi` | internal/handlers/order.go:28 | An accepted value lies in the int64 range; a range error carries the int64 bound, MinInt64 exactly when the string starts with '-'; the empty string and strings without a digit are syntax errors |
| `Strconv.AtoiIgnoringError` | internal/handlers/user.go:68-71 | The value read when the error is discarded is an int64: the parsed value, the clamped bound on overflow, and 0 for a syntax error |
| `Strconv.DecimalValue` | internal/handlers/order.go:28 | The digits of a rendered number read back as that number |
| `Strconv.AtoiDecimal` | internal/handlers/order.go:28 | Atoi accepts every rendered int64 (with a leading '-' for negatives) and returns it unchanged |
| `Strconv.NonNumericIsSyntaxError` | internal/handlers/user.go:68-71 | A string with a non-digit that is not a leading sign is a syntax error and reads as 0 |
| `Seqs.Filter` | internal/handlers/user.go:77-82 | A WHERE filter returns only rows of the table that satisfy the condition, and every such row |
| `Seqs.FilterAppend` | internal/handlers/order.go:70 | Filtering keeps stored order: it distributes over concatenation |
| `Seqs.FilterKeepsAll` | internal/handlers/user.go:76 | A condition every row satisfies (no WHERE added) returns the whole table |
| `Seqs.FilterKeepsOrder` | internal/handlers/order.go:70 | A WHERE filter keeps rows in stored order: rows sorted by a strictly increasing key stay sorted by it |
| `Seqs.FilterEmpty` | internal/handlers/order.go:70 | The filter is empty exactly when no row satisfies the condition |
| `Seqs.FirstIndex` | internal/handlers/user.go:108 | `First` returns the earliest row in key order that matches, or reports that none matches |
| `Seqs.FirstIndexAgree` | internal/handlers/user.go:108 | `First` depends only on which rows match |
| `Seqs.Skipped` | internal/handlers/user.go:85 | An OFFSET inside the table skips exactly that many rows and never more than the table holds |
| `Seqs.Window` | internal/handlers/user.go:84-86 | OFFSET/LIMIT returns the rows from the skipped count on, as many as the limit allows, by index |
| `Seqs.AdjacentWindowsGeneral` | internal/handlers/user.go:84-85 | A window followed by the next window is one window of the combined length |
| `Seqs.PagesArePrefix` | internal/handlers/user.go:84-85 | Pages 1..n of size L together are exactly the first n·L rows, in order, each once |
| `Models.ToJson` | internal/models/user.go:3-9 | A user is serialized with id, name, email and age, and the JSON shape has no password field |
| `Models.ToJsonAll` | internal/handlers/user.go:92 | A list of users is serialized element by element, in order |
| `Models.ToJsonIgnoresHash` | internal/models/user.go:8 | Serialization is the same whatever the password hash |
| `Http.DefaultQuery` | internal/handlers/user.go:68-71 | A present query parameter is used as given, even when empty; an absent one takes the default |
| `Database.FindUser` | internal/handlers/order.go:35 | A lookup by integer id returns a row with that id, or reports that no row has it |
| `Database.IntegerUserIndex` | internal/handlers/user.go:108 | A path id Atoi accepts finds the row with that id, or nothing when no row has it; any other path id finds nothing |
| `Database.UserIndex` | internal/handlers/user.go:108 | An id Atoi accepts is looked up by primary key; any other id finds the first row in id order the raw condition holds for, or nothing when the condition fails or holds for no row |
| `Database.RawTrueSelectsLowestId` | internal/handlers/user.go:108 | The path id "true" selects the first (lowest-id) user of any non-empty table |
| `Database.IntegerLookupGoneAfterDelete` | internal/handlers/user.go:160-164 | After the row an integer id found is removed, that id finds nothing |
| `Database.FindEmail` | internal/handlers/user.go:31 | The email query finds a row with that exact email, or reports that no row has it |
| `Database.RemoveAt` | internal/handlers/user.go:164 | Deleting a row keeps every other row in its order and drops just that one |
| `Database.RemovedIdIsGone` | internal/handlers/user.go:164 | After a delete, no row has the deleted id, ids stay ascending, and every other row is still there |
| `Database.Store.constructor` | internal/utils/database.go:26 | A freshly migrated database is empty and valid, and both counters start at 1 |
| `Database.Store.InsertUser` | internal/handlers/user.go:45 | `Create` appends exactly one row, with a fresh id and the given fields; nothing else changes |
| `Database.Store.UpdateUserAt` | internal/handlers/user.go:140-144 | Only name, email and age of that one row are rewritten; id, hash and all other rows stay |
| `Database.Store.DeleteUserAt` | internal/handlers/user.go:164 | Exactly that row is removed; orders are kept, orphaned |
| `Database.Store.InsertOrder` | internal/handlers/order.go:54 | `Create` appends exactly one order, with a fresh id, for a user present in the table |
| `UserHandlers.CreateUser` | internal/handlers/user.go:22-53 | A bad body gives 400 "Invalid input" and a taken email gives 400 "Email already exists", both with the table unchanged; otherwise one row is added with a fresh id and the input fields, the response is 201 with id/name/email/age only, and email uniqueness is preserved |
| `UserHandlers.FilterByAge` | internal/handlers/user.go:77-82 | `AgeBoundsHold`: the result holds only stored users meeting the bounds that applied (`age >= min` when min > 0, `age <= max` when max < 200), and every such user; with neither bound it is the whole table; the listing-level consequence is `GetUsersWithinBounds` |
| `UserHandlers.Matching` | internal/handlers/user.go:76-83 | The rows counted and paged are exactly the stored users within the bounds read from min_age and max_age |
| `UserHandlers.Page` | internal/handlers/user.go:68 | page is 1 when absent, 0 when not a number, the clamped int64 bound when out of range, its value otherwise |
| `UserHandlers.Limit` | internal/handlers/user.go:69 | limit is 10 when absent, 0 when not a number, the clamped int64 bound when out of range, its value otherwise |
| `UserHandlers.MinAge` | internal/handlers/user.go:70 | min_age is 0 when absent or not a number, the clamped int64 bound when out of range, its value otherwise |
| `UserHandlers.MaxAge` | internal/handlers/user.go:71 | max_age is 200 when absent, 0 when not a number, the clamped int64 bound when out of range (so `99999999999999999999` applies no upper bound), its value otherwise |
| `UserHandlers.Offset` | internal/handlers/user.go:85 | The offset is an int64 congruent to (page-1)·limit modulo 2^64, and equal to it when that fits; `GetUsersPageIsSlice` uses it |
| `UserHandlers.QueryInt` | internal/handlers/user.go:68-71 | An absent parameter reads as its default, a non-numeric one as 0, an out-of-range one as the clamped int64 bound, a numeric one as its value |
| `UserHandlers.WrapInt64` | internal/handlers/user.go:85 | The offset arithmetic yields an int64 congruent to the exact value modulo 2^64, and equal to it when no overflow occurs |
| `UserHandlers.GetUsers` | internal/handlers/user.go:67-94 | Always 200 with a page body that echoes page and limit, holds at most `limit` users when limit ≥ 0 and has a total no larger than the table |
| `UserHandlers.DefaultsParse` | internal/handlers/user.go:68-71 | The defaults "1", "10", "0" and "200" read as 1, 10, 0 and 200 |
| `UserHandlers.GetUsersDefaults` | internal/handlers/user.go:68-86 | With no query parameters: page 1, limit 10, no age filter, total = table size, and the users are the first ten in id order |
| `UserHandlers.GetUsersNonNumericIsZero` | internal/handlers/user.go:68-69 | Non-numeric page and limit are echoed as 0, not as their defaults |
| `UserHandlers.WindowWithinBounds` | internal/handlers/user.go:77-86 | Every user in any window of the age-filtered rows is a stored user that meets the bounds that applied |
| `UserHandlers.GetUsersWithinBounds` | internal/handlers/user.go:77-86 | Every listed user is a stored user whose age meets the lower bound when min_age > 0 and the upper bound when max_age < 200 |
| `UserHandlers.GetUsersAgeRange` | internal/handlers/user.go:77-82 | With min_age = lo > 0 and max_age = hi < 200, every listed age lies in [lo, hi] |
| `UserHandlers.GetUsersTotalIgnoresPaging` | internal/handlers/user.go:83 | `total` is the number of matching rows and is the same whatever page and limit are |
| `UserHandlers.WindowAt` | internal/handlers/user.go:84-85 | A window at a non-negative offset holds the rows from that offset on, at most `limit` of them |
| `UserHandlers.GetUsersPageIsSlice` | internal/handlers/user.go:83-93 | For page ≥ 1, limit ≥ 1 and (page-1)·limit within int64, the users are the matching rows from offset (page-1)·limit on, at most `limit` of them |
| `UserHandlers.GetUserByID` | internal/handlers/user.go:105-113 | Either 200 with a stored user's id/name/email/age or 404 "User not found"; for an id Atoi accepts, 200 exactly when a row has that id, and then with that row; for any other id, 200 exactly when the raw condition holds for some row |
| `UserHandlers.CreatedUserIsFound` | internal/handlers/user.go:105-113 | A user appended with a fresh id is returned by a lookup of that id, with the fields it was created with |
| `UserHandlers.GetUserByIDIgnoresHash` | internal/handlers/user.go:112 | Changing a stored password hash changes nothing in any lookup response, for every raw condition that does not itself read the hash |
| `UserHandlers.ApplyUpdates` | internal/handlers/user.go:140-144 | Non-empty name/email and non-zero age replace the old values, zero values keep them; id and hash never change |
| `UserHandlers.ApplyUpdatesIdempotent` | internal/handlers/user.go:140-144 | Applying the same update twice is the same as applying it once |
| `UserHandlers.UpdateUser` | internal/handlers/user.go:126-147 | An id that finds no row gives 404 whatever the body, before validation; then a bad body gives 400; both leave the table unchanged; otherwise only the found row's name/email/age are updated (for a raw condition, the first row it holds for), and the response is 200 with the updated user |
| `UserHandlers.DeleteUser` | internal/handlers/user.go:157-166 | An id that finds no row gives 404 with the table unchanged; otherwise the found row only is removed and the response is 204 with no body; an integer id then finds nothing, so a second delete of it gives 404 |
| `OrderHandlers.CreateOrder` | internal/handlers/order.go:27-56 | A non-integer id gives 400 "Invalid user ID", then a missing user gives 404, then a bad body gives 400 "Invalid input", each with no order created; otherwise exactly one order is appended with the parsed user id, the input's product/quantity/price and the current time, and the response is 201 with it |
| `OrderHandlers.GetOrders` | internal/handlers/order.go:66-76 | 200 exactly when there is no storage fault and the id reads as an integer; the list is then exactly the stored orders with that user_id; every failure is 500 "Failed to fetch orders" |
| `OrderHandlers.OrdersOf` | internal/handlers/order.go:70 | The list holds only stored orders with that user_id, and every such order; its order is `OrdersOfAscending`, its growth `GetOrdersAfterAppend` |
| `OrderHandlers.GetOrdersNoneIsEmpty` | internal/handlers/order.go:66-75 | An id owning no order gives 200 with an empty list, whether or not that user exists |
| `OrderHandlers.GetOrdersAfterAppend` | internal/handlers/order.go:70 | Appending an order adds it to the end of its owner's list and changes no other user's list |
| `OrderHandlers.OrdersOfAscending` | internal/handlers/order.go:70 | A user's orders come back in stored (ascending id) order |
| `Auth.BearerToken` | internal/middleware/auth.go:14-21 | When a token is found, the header is exactly "Bearer " + token; when none is found, no token makes the header "Bearer " + token |
| `Auth.BearerTokenRoundTrip` | internal/middleware/auth.go:16-21 | Stripping the prefix undoes adding it: the token of "Bearer " + t is t |
| `Auth.PrefixMismatchHasNoToken` | internal/middleware/auth.go:16-18 | A header that differs from "Bearer " in one of its first 7 characters (other case, leading space) is refused |
| `Auth.BarePrefixGivesEmptyToken` | internal/middleware/auth.go:16-21 | The header "Bearer " passes the prefix check with an empty token |
| `Auth.AuthMiddleware` | internal/middleware/auth.go:11-35 | The request proceeds iff the header is "Bearer " + t for a t that verifies; a bad prefix gives 401 "Missing or invalid token"; a failed verification gives 401 "Invalid token" |
| `Auth.ShortHeaderRejected` | internal/middleware/auth.go:16-18 | A header shorter than 7 characters, including a missing one, gives 401 "Missing or invalid token" |
| `Auth.PrefixedHeader` | internal/middleware/auth.go:21-33 | For "Bearer " + t, only the verification of t decides between proceeding and 401 "Invalid token" |
| `ErrorNormalizer.ErrorHandler` | internal/middleware/error_handler.go:10-20 | Nothing is written when the chain recorded no error; otherwise the status already set is reused, `code` equals it, and `message` is the first recorded error |
| `ErrorNormalizer.LaterErrorsIgnored` | internal/middleware/error_handler.go:16 | Errors after the first do not change the envelope |
| `ErrorNormalizer.DecidedAfterDownstream` | internal/middleware/error_handler.go:12-13 | The envelope is decided on the context after the downstream chain ran |

## Left out

- `cmd/main.go` is not part of this model. It covers process start, `.env` loading, swagger and routing. In that router, `POST /users` sits inside the protected group behind the auth gate (cmd/main.go:47). `handlers.Login` (cmd/main.go:42) is out of scope.
- `internal/utils/database.go` (connecting, migrating, panics) is I/O. The `Store` class stands in for the database.
- Password hashing: bcrypt's output is the parameter `hashed`. Its error is ignored in the source and is not modelled.
- JWT parsing, signature checking and the `JWT_SECRET` lookup are the predicate `verify`. The verified claims are not passed downstream, as in the source.
- JSON binding is an `Option` input. Which bodies gin rejects is not modelled.
- Prices are float64 values that are only copied. There is no arithmetic on them.
- `time.Now()` is the parameter `now`.
- The database's unique constraint on email is not modelled. `UserHandlers.UpdateUser` can therefore set an email another row already has. The database would reject that write, and what GORM then leaves in the response is not visible in the source.
- Database errors beyond the `fault` flag of `GetOrders` are not modelled. That includes a failing email pre-check in `CreateUser`, which the source treats as "email free", and failing inserts or lookups.
- `Database.UserIndex`: which raw conditions PostgreSQL accepts and which rows they match is the parameter `raw`; SQL itself is not modelled.
- `OrderHandlers.GetOrders`: the database's own reading of the id text as an integer is replaced by Atoi's syntax. PostgreSQL also accepts surrounding whitespace.
- `Strconv.Atoi`, `Strconv.NonNumericIsSyntaxError`: Go's scanner accumulates the digits in an unsigned 64-bit value. When the digit run exceeds 2^64-1 before a non-digit (as in "99999999999999999999x"), Go reports a range error with the int64 bound; the model reports a syntax error, which reads as 0. A digit run that overflows int64 but not uint64 before the non-digit ("9300000000000000000x") is a syntax error in both.
- `Seqs.Window`: the OFFSET and LIMIT rules for a non-positive offset and for limit ≤ 0 come from the database library, not from the source. The pagination lemmas assume page ≥ 1 and limit ≥ 1.
- Concurrency between requests is not modelled. Each handler call is one atomic step on the store.

## Findings

| source | as written | input that shows it | evidently intended | confidence | as-written member | corrected member |
|---|---|---|---|---|---|---|
| internal/handlers/user.go:108 (also 129, 160) | `First(&user, id)` gets the path id as a string; GORM uses one that is not an integer as a raw WHERE condition | `GET /users/true` returns the lowest-id user; `PUT` and `DELETE` on `/users/true` rewrite or remove that user | look the row up by integer id only, and answer 404 for any other id | not executed | `Database.UserIndex` (shown by `Database.RawTrueSelectsLowestId`) | `Database.IntegerUserIndex` (with `Database.IntegerLookupGoneAfterDelete`), which `UserIndex` uses for every id Atoi accepts and which the handlers follow exactly when `raw` is `SqlError` |
