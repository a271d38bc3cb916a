/**
  The application state behind every route: the users collection in natural
  (insertion) order and the books collection keyed by id, plus the shape of
  the HTTP responses the handlers send.
 */
module Store {
  import opened Prelude
  import opened External
  import opened Lists

  datatype Role = UserRole | AdminRole

  /** A user document. `passwordHash` is only ever a bcrypt hash, never the plaintext. */
  datatype Account = Account(
    id: Id,
    username: string,
    email: string,
    passwordHash: string,
    address: string,
    role: Role,
    cart: seq<Id>,
    favourites: seq<Id>
  )

  /** A book document, with exactly the fields `bookSchema` accepts. */
  datatype Book = Book(url: string, title: string, author: string, price: real, desc: string, language: string)

  datatype State = State(accounts: seq<Account>, books: map<Id, Book>)

  /** The `user` object of a signup/signin reply: id, username and email only. */
  datatype PublicUser = PublicUser(id: Id, username: string, email: string)

  /** The JSON a handler sends; every shape carries a `message`. */
  datatype Reply =
    | Message(message: string)
    | ListReply(message: string, list: seq<Id>)
    | TokenReply(message: string, token: Token, user: PublicUser)

  datatype Response = Response(status: nat, reply: Reply)

  /** What a handler returns: the response sent and the state it leaves behind. */
  datatype Outcome = Outcome(response: Response, state: State)

  function PublicView(a: Account): PublicUser {
    PublicUser(a.id, a.username, a.email)
  }

  /** Answer with status and message, leaving the state as it was. */
  function Reject(status: nat, message: string, st: State): (r: Outcome)
    ensures r.state == st && r.response.status == status && r.response.reply.message == message
  {
    Outcome(Response(status, Message(message)), st)
  }

  /** `User.findById(id)`: the first document with that `_id`. */
  function FindById(accounts: seq<Account>, id: Id): (r: Option<nat>)
    ensures r.Some? ==> r.value < |accounts| && accounts[r.value].id == id
    ensures r.None? <==> forall j :: 0 <= j < |accounts| ==> accounts[j].id != id
  {
    FirstIndex(accounts, (a: Account) => a.id == id)
  }

  /** `User.findOne({ username })`. */
  function FindByUsername(accounts: seq<Account>, username: string): (r: Option<nat>)
    ensures r.Some? ==> r.value < |accounts| && accounts[r.value].username == username
    ensures r.None? <==> forall j :: 0 <= j < |accounts| ==> accounts[j].username != username
  {
    FirstIndex(accounts, (a: Account) => a.username == username)
  }

  /** `User.findOne({ email })`. */
  function FindByEmail(accounts: seq<Account>, email: string): (r: Option<nat>)
    ensures r.Some? ==> r.value < |accounts| && accounts[r.value].email == email
    ensures r.None? <==> forall j :: 0 <= j < |accounts| ==> accounts[j].email != email
  {
    FirstIndex(accounts, (a: Account) => a.email == email)
  }

  /**
    The state every handler preserves: ids, usernames and emails are pairwise
    distinct across accounts, and no cart or favourites list repeats a book id.
   */
  predicate Valid(st: State) {
    && (forall i, j :: 0 <= i < j < |st.accounts| ==>
          && st.accounts[i].id != st.accounts[j].id
          && st.accounts[i].username != st.accounts[j].username
          && st.accounts[i].email != st.accounts[j].email)
    && (forall i :: 0 <= i < |st.accounts| ==> NoDup(st.accounts[i].cart) && NoDup(st.accounts[i].favourites))
  }

  /** Two versions of one account that agree on everything but its two lists. */
  predicate SameIdentity(a: Account, b: Account) {
    a.id == b.id && a.username == b.username && a.email == b.email
    && a.passwordHash == b.passwordHash && a.address == b.address && a.role == b.role
  }

  /**
    `st'` is a later state of `st` as far as the routes can take it: no
    account is removed, reordered or given a new identity, credentials,
    address or role, and no book is removed or changed. New accounts and
    books may appear and lists may change.
   */
  predicate Extends(st: State, st': State) {
    && |st.accounts| <= |st'.accounts|
    && (forall i :: 0 <= i < |st.accounts| ==> SameIdentity(st.accounts[i], st'.accounts[i]))
    && (forall id :: id in st.books ==> id in st'.books && st'.books[id] == st.books[id])
  }

  lemma ExtendsTransitive(st1: State, st2: State, st3: State)
    requires Extends(st1, st2) && Extends(st2, st3)
    ensures Extends(st1, st3)
  {
  }

  /** Under `Valid`, an account is found by id exactly at its own position. */
  lemma FindByIdUnique(st: State, i: nat)
    requires Valid(st) && i < |st.accounts|
    ensures FindById(st.accounts, st.accounts[i].id) == Some(i)
  {
  }

  /** Under `Valid`, an account is found by email exactly at its own position. */
  lemma FindByEmailUnique(st: State, i: nat)
    requires Valid(st) && i < |st.accounts|
    ensures FindByEmail(st.accounts, st.accounts[i].email) == Some(i)
  {
  }
}
