# Pustakalay bookstore backend — a Dafny model of its route logic

Pustakalay is an Express backend for a bookstore. Users sign up and sign in. They
receive a JWT and use it to keep a cart and a favourites list of book ids. Admins
add books to the catalog. This project models the decision logic of the five
route files. Each handler is a pure transition from a request and a state to a
response and a new state:

- `Store` holds the entities. `State` is the users collection, kept in natural
  (insertion) order so that Mongo's `findOne`/`findById` are "first match", plus the
  books keyed by id. `Valid` is the invariant the handlers keep: ids, usernames and
  emails are pairwise distinct, and no cart or favourites list repeats an id.
- `External` holds the foreign collaborators: bcrypt's hash/compare, JWT
  sign/verify, and zod's email and URL checks. They are function values bundled in
  `Collaborators`. `Lawful` states the facts the proofs rely on:
  - a password matches its own hash, for every salt;
  - a signed token is a non-empty word with no spaces;
  - a token verifies to its id for seven days (604800 s) after issue.
- `Validation` models zod's `safeParse` as the route files use it. A schema is an
  ordered list of field rules. All issues are collected in key order, and the
  handler answers with the first one. Zod's own messages are modelled too:
  "Required" for a missing key, and "Expected string, received number" style text
  for a value of the wrong JSON kind.
- `Auth` models `authenticateToken`. The token is the second field of
  `header.split(" ")`. No token gives 401 and a failed verification gives 403. The
  scheme word is never inspected.
- `Membership` is one add/remove pair, parametrised by list kind. It covers cart.js
  and favourite.js. The only difference is that adding to favourites checks the
  catalog first and adding to the cart does not. That asymmetry is kept.
- `Accounts` models signup and signin. `Catalog` models add-book, where
  validation comes before the admin gate.
- `App` dispatches a request. Public routes go straight to their handler. Protected
  routes go through the middleware first. `HandlePreservesValid` and
  `RunPreservesValid` prove that every request keeps `Valid`.

The clock, the id Mongo gives a new document and bcrypt's random salt are
parameters (`App.Env`). A new id that already exists makes the save fail, and that
is modelled as the route's 500 reply. So is a caller account that no longer exists
in the cart and favourites routes, where `user.cart` throws on `null`.

Three facts about the route code shape the model:
- `signupSchema` (routes/user.js:8-13) has no `role` field, and the new `User`
  (routes/user.js:43-48) is built without one. Every new account gets the default
  user role.
- `authenticateToken` reads only `split(" ")[1]` (routes/userAuth.js:5). The scheme
  word in front of the token is never read, so any word followed by a space and a
  token is accepted, not only `Bearer`.
- Cart and favourites are arrays. An add pushes the id (routes/cart.js:18). A
  remove is `filter` (routes/cart.js:40), which drops every occurrence of the id.

## Model

| member | source | states |
|---|---|---|
| `Lists.Without` | routes/cart.js:40 | the filtered list no longer contains the removed id and is no longer than the input |
| `Lists.WithoutCounts` | routes/cart.js:40 | filtering removes exactly the occurrences of the id: every other id keeps its multiplicity |
| `Lists.WithoutIsSubsequence` | routes/favourite.js:50-52 | the ids that survive the filter keep their original order |
| `Lists.WithoutNoDup` | routes/cart.js:36-41 | removing an id from a duplicate-free list leaves it duplicate-free |
| `Lists.AppendFreshNoDup` | routes/cart.js:14-18 | pushing an id that the list lacks keeps the list duplicate-free |
| `Lists.AppendThenWithout` | routes/cart.js:14-41 | pushing an absent id and then filtering it out gives back the original list |
| `Lists.FirstIndex` | routes/user.js:77 | the index returned is the first element that satisfies the query, and None means that no element satisfies it |
| `Store.FindById` | routes/cart.js:12 | `findById` finds an account carrying the id, or reports that none carries it |
| `Store.FindByUsername` | routes/user.js:31 | `findOne({ username })` finds an account with that username, or reports that none has it |
| `Store.FindByEmail` | routes/user.js:36 | `findOne({ email })` finds an account with that email, or reports that none has it |
| `Validation.FieldIssue` | routes/user.js:8-13 | a field yields no issue exactly when it is present, of the expected JSON kind and passes its check |
| `Validation.Issues` | routes/user.js:24-27 | the issue list is empty exactly when every field is accepted; otherwise its head is the issue of the first rejected field in schema order |
| `Auth.Split` | routes/userAuth.js:5 | `split(" ")` returns at least one field, no field contains a space, and joining the fields with spaces gives back the header |
| `Auth.SplitJoin` | routes/userAuth.js:5 | splitting is the inverse of joining space-free fields, so a split is unique |
| `Auth.BearerToken` | routes/userAuth.js:4-5 | an extracted token is non-empty and contains no space; the header is a space-free scheme word, one space, the token, then either nothing or text starting with a space, so the token is exactly the second field |
| `Auth.SecondField` | routes/userAuth.js:5-9 | for a header made of a space-free word, a space, a space-free field and then nothing or text starting with a space, the token is that field, or no token when the field is empty (e.g. "Bearer tok extra" gives "tok") |
| `Auth.SchemeIgnored` | routes/userAuth.js:5 | any scheme word followed by a space and a token yields that token |
| `Auth.NoSecondField` | routes/userAuth.js:5-9 | a header without a space yields no token |
| `Auth.EmptySecondField` | routes/userAuth.js:5-9 | a header whose second field is empty ("Bearer ", or two spaces after the scheme) yields no token |
| `Auth.Authenticate` | routes/userAuth.js:3-18 | no token gives 401 "Access denied. Token missing."; a token that fails verification gives 403 "Invalid or expired token."; otherwise the caller is the verified id |
| `Auth.SignedTokenGranted` | routes/userAuth.js:11-14 | a token this service signed, sent within seven days after any scheme word, authenticates the signed id |
| `Membership.AddToList` | routes/favourite.js:7-35 | favourites gives 404 for a book not in the catalog; past that check a missing caller account gives 500 "Server error"; success (200) holds exactly when the book check passes, the caller exists and the id is absent; success appends the id and changes nothing else; every failure leaves the state unchanged |
| `Membership.RemoveFromList` | routes/cart.js:29-50 | a missing caller account gives 500 "Server error"; success holds exactly when the caller exists and the id is in the list; success filters every occurrence and changes nothing else; every failure leaves the state unchanged |
| `Membership.AddToCart` | routes/cart.js:7-26 | a duplicate gives 400 "Book is already in cart" with the state unchanged; otherwise the new cart is the old one with the id appended, other accounts and the catalog unchanged |
| `Membership.RemoveFromCart` | routes/cart.js:29-50 | an absent id gives 400 "Book is not in cart" with the state unchanged; otherwise the cart is the old one with every occurrence filtered out |
| `Membership.AddToFavourites` | routes/favourite.js:7-35 | a book not in the catalog gives 404 "Book not found"; a duplicate gives 400 "Book already in favourites"; otherwise the id is appended |
| `Membership.RemoveFromFavourites` | routes/favourite.js:36-66 | an absent id gives 400 "Book is not in favourites"; otherwise every occurrence is filtered out |
| `Membership.AddPreservesValid` | routes/cart.js:14-19 | adding to either list keeps the store invariant, in particular no duplicates in any list |
| `Membership.RemovePreservesValid` | routes/cart.js:36-41 | removing from either list keeps the store invariant |
| `Membership.AddThenRemoveRestores` | routes/cart.js:14-41 | a successful add followed by a remove of the same id restores the original state |
| `Membership.AddTwiceRefused` | routes/cart.js:14-16 | repeating a successful add gives 400 |
| `Membership.CartSkipsCatalog` | routes/cart.js:7-19 | the cart accepts an id that names no book, if the caller exists and lacks it |
| `Membership.FavouritesCatalogFirst` | routes/favourite.js:15-19 | the missing-book 404 comes before the account lookup: an unknown caller still gets 404, while the cart route gives that caller 500 |
| `Membership.FavouritesRemoveSkipsCatalog` | routes/favourite.js:44-53 | an id whose book is no longer in the catalog can still be removed from favourites |
| `Accounts.SignupFieldsPresent` | routes/user.js:8-13 | a body signup accepts has username ≥4, a valid email, password ≥5 and address ≥3, all strings |
| `Accounts.Signup` | routes/user.js:22-65 | a validation failure answers the first issue; for a valid body a taken username gives 400 "Username already taken", then a taken email gives 400 "Email already registered", then a taken id gives 500; 201 holds exactly when the body is valid and username, email and id are all free, appends exactly the new account and replies with a token and the public view; any other reply leaves the state unchanged |
| `Accounts.NewAccount` | routes/user.js:41-48 | the new account's public view is the new id with the sent username and email; its stored hash matches the sent password; it keeps the sent address, has the user role and empty lists |
| `Accounts.Signin` | routes/user.js:68-100 | signin never changes the state; a validation failure answers the first issue; for a valid body an unknown email or a wrong password gives 400 "Invalid email or password"; 200 holds exactly when the body is valid, an account has that email and its hash matches the password, and carries a token for that account; every other reply is 400 |
| `Accounts.SignupPreservesValid` | routes/user.js:31-50 | signup keeps ids, usernames and emails pairwise distinct |
| `Accounts.SignupTwiceRefused` | routes/user.js:31-34 | repeating a successful signup gives 400 "Username already taken" with the state unchanged |
| `Accounts.UsernameCheckedFirst` | routes/user.js:31-39 | when both username and email collide, the reply is "Username already taken" |
| `Accounts.SigninFailuresIndistinguishable` | routes/user.js:77-85 | unknown email and wrong password produce the identical 400 "Invalid email or password" |
| `Accounts.SigninValidationNotGeneric` | routes/user.js:70-73 | a signin validation failure never carries the generic credentials message |
| `Accounts.SignupThenSignin` | routes/user.js:41-95 | after signup, signing in with the same email and password gives 200 and a token for the new account |
| `Accounts.SignupTokenVerifies` | routes/user.js:52-59 | the signup token verifies, for seven days, to the id of the account that signup created |
| `Accounts.SigninTokenVerifies` | routes/user.js:87-95 | the signin token verifies, for seven days, to the id of an existing account with the reported email |
| `Accounts.SignupSchemaOrder` | routes/user.js:8-13 | the validation message names the first failing field in the order username, email, password, address |
| `Accounts.SignupCreatesAccount` | routes/user.js:41-50 | the new account stores the hash of the password rather than the password, the user role and empty lists; existing accounts and books are unchanged |
| `Catalog.BookOf` | routes/book.js:30 | the stored book holds exactly the body's values under the six schema keys; any other key is stripped |
| `Catalog.BookRoundTrip` | routes/book.js:30 | reading a book back from its stored fields gives the same book |
| `Catalog.IsAdmin` | routes/book.js:25-26 | true only when an account with the caller's id exists and has the admin role; a missing account or a non-admin role gives false |
| `Catalog.BookFieldsAccepted` | routes/book.js:8-15 | an accepted book body has a valid URL, non-empty title, author and language, a non-negative price, and a desc of at least 5 characters |
| `Catalog.AddBook` | routes/book.js:18-38 | an invalid body gives 400 with the first issue; then a missing or non-admin caller gives 403 "Only admin can add books"; a valid body from an admin whose new id is already taken gives 500 "Internal Server Error"; 201 exactly when the body is valid, the caller is admin and the id is new; success adds exactly the parsed book and leaves the accounts unchanged |
| `Catalog.ValidationBeforeAuthorization` | routes/book.js:20-28 | a non-admin caller with an invalid body gets 400, not 403 |
| `Catalog.PriceBoundary` | routes/book.js:12 | a price of 0 is accepted and a negative price is refused with "Price must be non-negative" |
| `Catalog.AddBookAddsOne` | routes/book.js:30-33 | a successful add grows the catalog by exactly one book |
| `Catalog.AddBookPreservesValid` | routes/book.js:25-33 | adding a book keeps the store invariant |
| `App.Dispatch` | index.js:14-16 | each protected route runs its own handler (/addbook, the two cart routes, the two favourites routes) with the caller id; a protected handler that refuses leaves the state alone; the cart and favourites routes never touch the catalog or the number of accounts; /addbook never touches the accounts; every handler extends the state |
| `App.DispatchPreservesValid` | index.js:14-16 | every protected handler keeps the store invariant |
| `App.Handle` | routes/userAuth.js:7-17 | a protected route with no token gives 401 and one with a failed verification gives 403, both with the state unchanged; a verified request runs the route's handler with the verified id; signup and signin run their handlers with no token check |
| `App.HandlePreservesValid` | index.js:13-16 | every request to any mounted route keeps the store invariant |
| `App.HandleExtends` | index.js:13-16 | no request removes an account, changes an account's id, credentials, address or role, or removes or changes a book |
| `App.Run` | index.js:13-16 | after any sequence of requests every earlier account keeps its position and identity and every earlier book is unchanged; a sequence of signins changes nothing |
| `App.RunPreservesValid` | index.js:13-16 | any sequence of requests keeps the store invariant |
| `App.SignupTokenOpensCart` | routes/cart.js:7-21 | the token from a signup, sent as "Bearer <token>" within seven days, lets the new user add a book id to an empty cart |

## Left out

- Profile read, address update, book update, book delete and book listing: these routes are not in the modelled route files.
- Process start-up, route mounting details, listen ports, the health-check route and the database connection: these are plumbing and I/O.
- Internals of bcrypt, JWT and zod, including the email and URL regular expressions, signature crypto and the signing secret: these are foreign library calls. They are opaque functions constrained only by `Lawful`.
- Token expiry: `Lawful` only says that a token verifies within seven days of issue. It says nothing about verification at other times.
- Store failures other than an id collision on save: these are I/O. The 500 replies are modelled only for the colliding id and the missing caller account.
- ObjectId casting: a malformed `:bookId` would make Mongoose throw, giving a 500. Ids are modelled as one string equality type instead.
- Request bodies that are not JSON objects: these are handled by `express.json()` and zod's object check, which are outside the route code.
- JavaScript strings: zod measures length in UTF-16 code units, and the model counts Dafny characters.
- Infinite prices: prices are modelled as reals. `JSON.parse` reads a literal out of double range, such as `1e400`, as `Infinity`; zod 3's `nonnegative` accepts it and routes/book.js:30-31 would store it. The model has no such value and does not model double rounding.
- Zod version: the messages, the `issues[0]` choice and `parsed.error.errors` follow zod 3. Zod 4 has no `error.errors`, so routes/user.js:26 and routes/book.js:22 would throw there and answer the route's 500; that is not modelled.
- Roles: the role is modelled as user or admin. The user model file with the stored role string and its unique indexes is not part of this model.
- Concurrent requests and lost updates: the model runs requests one after another.
- Logging to the console.
