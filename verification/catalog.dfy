/**
  The catalog route: `bookSchema` and POST /addbook, which validates the body
  before it checks that the caller is an admin.
 */
module Catalog {
  import opened Prelude
  import opened External
  import opened Validation
  import opened Store

  const BookSchema: Schema := [
    FieldRule("url", Url("Invalid image URL")),
    FieldRule("title", MinLength(1, "Title is required")),
    FieldRule("author", MinLength(1, "Author is required")),
    FieldRule("price", NonNegative("Price must be non-negative")),
    FieldRule("desc", MinLength(5, "Description must be at least 5 characters")),
    FieldRule("language", MinLength(1, "Language is required"))
  ]

  const OnlyAdmin := "Only admin can add books"
  const Added := "Book added successfully "
  /** The catch-all reply (a failed save lands here). */
  const InternalError := "Internal Server Error"

  /** The six book fields, when each is present with the kind the schema expects. */
  predicate BookShaped(body: Body) {
    && "url" in body && body["url"].JString?
    && "title" in body && body["title"].JString?
    && "author" in body && body["author"].JString?
    && "price" in body && body["price"].JNumber?
    && "desc" in body && body["desc"].JString?
    && "language" in body && body["language"].JString?
  }

  /** A body the schema accepts has every field, with exactly the checks of `bookSchema`. */
  lemma BookFieldsAccepted(c: Collaborators, body: Body)
    requires Issues(c, BookSchema, body) == []
    ensures BookShaped(body)
    ensures c.isUrl(Text(body, "url"))
    ensures Text(body, "title") != [] && Text(body, "author") != [] && Text(body, "language") != []
    ensures Number(body, "price") >= 0.0
    ensures |Text(body, "desc")| >= 5
  {
    assert Accepts(c, BookSchema[0], body) && Accepts(c, BookSchema[1], body) && Accepts(c, BookSchema[2], body);
    assert Accepts(c, BookSchema[3], body) && Accepts(c, BookSchema[4], body) && Accepts(c, BookSchema[5], body);
  }

  /** The keys `bookSchema` declares; zod strips every other key from `parsed.data`. */
  const BookKeys: set<string> := {"url", "title", "author", "price", "desc", "language"}

  /** The document a stored book is saved as: its six fields under their schema keys. */
  function Fields(b: Book): Body {
    map["url" := JString(b.url), "title" := JString(b.title), "author" := JString(b.author),
        "price" := JNumber(b.price), "desc" := JString(b.desc), "language" := JString(b.language)]
  }

  /** `parsed.data`: the book built from exactly the schema's fields (other keys are stripped). */
  function BookOf(body: Body): (b: Book)
    requires BookShaped(body)
    ensures Fields(b) == map k | k in body && k in BookKeys :: body[k]
  {
    Book(Text(body, "url"), Text(body, "title"), Text(body, "author"), Number(body, "price"),
         Text(body, "desc"), Text(body, "language"))
  }

  /** Saving a book and parsing its document back gives the same book. */
  lemma BookRoundTrip(b: Book)
    ensures BookShaped(Fields(b)) && BookOf(Fields(b)) == b
  {
  }

  /**
    `req.user.role === 'admin'` after `User.findById`: true only when the
    caller's account exists and has the admin role (a missing account is not
    an admin).
   */
  function IsAdmin(accounts: seq<Account>, caller: Id): (r: bool)
    ensures r ==> exists i :: 0 <= i < |accounts| && accounts[i].id == caller && accounts[i].role == AdminRole
    ensures (forall i :: 0 <= i < |accounts| && accounts[i].id == caller ==> accounts[i].role != AdminRole) ==> !r
    ensures ((exists i :: 0 <= i < |accounts| && accounts[i].id == caller)
             && (forall i :: 0 <= i < |accounts| && accounts[i].id == caller ==> accounts[i].role == AdminRole)) ==> r
  {
    match FindById(accounts, caller)
    case None => false
    case Some(i) => accounts[i].role == AdminRole
  }

  /**
    POST /addbook for the authenticated `caller`, storing the book under the
    fresh document id `newId`. An invalid body is a 400 whoever asks; then a
    caller who is missing or not an admin gets 403; otherwise exactly one book
    is added and the accounts are untouched.
   */
  function AddBook(c: Collaborators, caller: Id, body: Body, newId: Id, st: State): (r: Outcome)
    ensures Issues(c, BookSchema, body) != [] ==> r == Reject(400, Issues(c, BookSchema, body)[0], st)
    ensures Issues(c, BookSchema, body) == [] && !IsAdmin(st.accounts, caller) ==> r == Reject(403, OnlyAdmin, st)
    ensures (Issues(c, BookSchema, body) == [] && IsAdmin(st.accounts, caller) && newId in st.books) ==>
      r == Reject(500, InternalError, st)
    ensures r.response.status != 201 ==> r.state == st
    ensures r.response.status == 201 <==> Issues(c, BookSchema, body) == [] && IsAdmin(st.accounts, caller) && newId !in st.books
    ensures r.response.status == 201 ==>
      && BookShaped(body)
      && r.state.accounts == st.accounts
      && newId !in st.books
      && r.state.books == st.books[newId := BookOf(body)]
      && r.response.reply == Message(Added)
  {
    var issues := Issues(c, BookSchema, body);
    if issues != [] then Reject(400, issues[0], st)
    else if !IsAdmin(st.accounts, caller) then Reject(403, OnlyAdmin, st)
    else
      BookFieldsAccepted(c, body);
      if newId in st.books then Reject(500, InternalError, st)
      else Outcome(Response(201, Message(Added)), st.(books := st.books[newId := BookOf(body)]))
  }

  /** Validation is decided before authorization: a non-admin sending a bad body sees 400, not 403. */
  lemma ValidationBeforeAuthorization(c: Collaborators, caller: Id, body: Body, newId: Id, st: State)
    requires Issues(c, BookSchema, body) != []
    requires !IsAdmin(st.accounts, caller)
    ensures AddBook(c, caller, body, newId, st).response.status == 400
  {
  }

  /** A price of zero passes the schema and a negative price is refused with its own message. */
  lemma PriceBoundary(c: Collaborators, body: Body)
    requires "price" in body
    ensures body["price"] == JNumber(0.0) ==> FieldIssue(c, BookSchema[3], body) == None
    ensures body["price"].JNumber? && body["price"].n < 0.0 ==>
      FieldIssue(c, BookSchema[3], body) == Some("Price must be non-negative")
  {
  }

  /** A successful add grows the catalog by exactly one book. */
  lemma AddBookAddsOne(c: Collaborators, caller: Id, body: Body, newId: Id, st: State)
    requires AddBook(c, caller, body, newId, st).response.status == 201
    ensures |AddBook(c, caller, body, newId, st).state.books| == |st.books| + 1
  {
  }

  /** Adding a book keeps the account invariant (it does not touch the accounts). */
  lemma AddBookPreservesValid(c: Collaborators, caller: Id, body: Body, newId: Id, st: State)
    requires Valid(st)
    ensures Valid(AddBook(c, caller, body, newId, st).state)
  {
  }
}
