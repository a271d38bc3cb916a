/**
  The routes as mounted under /api/v1: signup and signin are public, every
  other route runs `authenticateToken` first and reaches its handler only with
  a verified caller id.
 */
module App {
  import opened Prelude
  import opened External
  import opened Lists
  import opened Validation
  import opened Store
  import opened Auth
  import opened Membership
  import opened Accounts
  import opened Catalog

  datatype Route =
    | SignupRoute(body: Body)
    | SigninRoute(body: Body)
    | AddBookRoute(body: Body)
    | AddToCartRoute(bookId: Id)
    | RemoveFromCartRoute(bookId: Id)
    | AddToFavouritesRoute(bookId: Id)
    | RemoveFromFavouritesRoute(bookId: Id)

  /** A request: its Authorization header (if sent) and the route it targets. */
  datatype Request = Request(authorization: Option<string>, route: Route)

  /** What the environment supplies: the clock, the id Mongo assigns a new document, bcrypt's salt. */
  datatype Env = Env(now: int, freshId: Id, salt: nat)

  predicate Protected(route: Route) {
    !route.SignupRoute? && !route.SigninRoute?
  }

  /**
    The handler a protected route runs once the middleware has let `caller`
    through. A refusal leaves the state alone; the cart and favourites routes
    change only the caller's lists and never the catalog, and /addbook changes
    only the catalog.
   */
  function Dispatch(c: Collaborators, env: Env, route: Route, caller: Id, st: State): (r: Outcome)
    requires Protected(route)
    ensures r.response.status != 200 && r.response.status != 201 ==> r.state == st
    ensures route.AddBookRoute? ==> r.state.accounts == st.accounts
    ensures !route.AddBookRoute? ==> r.state.books == st.books && |r.state.accounts| == |st.accounts|
    ensures Extends(st, r.state)
    ensures route.AddBookRoute? ==> r == AddBook(c, caller, route.body, env.freshId, st)
    ensures route.AddToCartRoute? ==> r == AddToCart(caller, route.bookId, st)
    ensures route.RemoveFromCartRoute? ==> r == RemoveFromCart(caller, route.bookId, st)
    ensures route.AddToFavouritesRoute? ==> r == AddToFavourites(caller, route.bookId, st)
    ensures route.RemoveFromFavouritesRoute? ==> r == RemoveFromFavourites(caller, route.bookId, st)
  {
    match route
    case AddBookRoute(body) => AddBook(c, caller, body, env.freshId, st)
    case AddToCartRoute(b) => AddToCart(caller, b, st)
    case RemoveFromCartRoute(b) => RemoveFromCart(caller, b, st)
    case AddToFavouritesRoute(b) => AddToFavourites(caller, b, st)
    case RemoveFromFavouritesRoute(b) => RemoveFromFavourites(caller, b, st)
  }

  /** Every protected handler keeps the state `Valid`. */
  lemma DispatchPreservesValid(c: Collaborators, env: Env, route: Route, caller: Id, st: State)
    requires Protected(route) && Valid(st)
    ensures Valid(Dispatch(c, env, route, caller, st).state)
  {
    match route
    case AddBookRoute(body) => AddBookPreservesValid(c, caller, body, env.freshId, st);
    case AddToCartRoute(b) => AddPreservesValid(Cart, caller, b, st);
    case RemoveFromCartRoute(b) => RemovePreservesValid(Cart, caller, b, st);
    case AddToFavouritesRoute(b) => AddPreservesValid(Favourites, caller, b, st);
    case RemoveFromFavouritesRoute(b) => RemovePreservesValid(Favourites, caller, b, st);
  }

  /**
    One request against the state. On a protected route a missing token is a
    401 and a bad one a 403, both leaving the state alone; otherwise the
    route's handler runs with the verified caller id.
   */
  function Handle(c: Collaborators, env: Env, req: Request, st: State): (r: Outcome)
    ensures Protected(req.route) && BearerToken(req.authorization).None? ==>
      r == Outcome(Response(401, Message(TokenMissing)), st)
    ensures (Protected(req.route) && BearerToken(req.authorization).Some?
             && c.verify(BearerToken(req.authorization).value, env.now).None?) ==>
      r == Outcome(Response(403, Message(TokenInvalid)), st)
    ensures (Protected(req.route) && Authenticate(c, req.authorization, env.now).Granted?) ==>
      r == Dispatch(c, env, req.route, Authenticate(c, req.authorization, env.now).caller, st)
    ensures req.route.SignupRoute? ==> r == Signup(c, req.route.body, env.freshId, env.salt, env.now, st)
    ensures req.route.SigninRoute? ==> r == Signin(c, req.route.body, env.now, st)
  {
    match req.route
    case SignupRoute(body) => Signup(c, body, env.freshId, env.salt, env.now, st)
    case SigninRoute(body) => Signin(c, body, env.now, st)
    case _ =>
      match Authenticate(c, req.authorization, env.now)
      case Denied(resp) => Outcome(resp, st)
      case Granted(caller) => Dispatch(c, env, req.route, caller, st)
  }

  /** Every request, successful or not, keeps the state `Valid`. */
  lemma HandlePreservesValid(c: Collaborators, env: Env, req: Request, st: State)
    requires Valid(st)
    ensures Valid(Handle(c, env, req, st).state)
  {
    match req.route
    case SignupRoute(body) => SignupPreservesValid(c, body, env.freshId, env.salt, env.now, st);
    case SigninRoute(_) =>
    case _ =>
      match Authenticate(c, req.authorization, env.now)
      case Denied(_) =>
      case Granted(caller) => DispatchPreservesValid(c, env, req.route, caller, st);
  }

  /** No request removes or rewrites an account's identity or a stored book. */
  lemma HandleExtends(c: Collaborators, env: Env, req: Request, st: State)
    ensures Extends(st, Handle(c, env, req, st).state)
  {
  }

  /**
    A run of requests from `st`, each at its own environment. There is no
    route that deletes or edits a user or a book, so whatever the requests,
    the final state extends the first.
   */
  function Run(c: Collaborators, envs: seq<Env>, reqs: seq<Request>, st: State): (r: State)
    requires |envs| == |reqs|
    ensures Extends(st, r)
    ensures (forall i :: 0 <= i < |reqs| ==> reqs[i].route.SigninRoute?) ==> r == st
  {
    if reqs == [] then st
    else
      var st1 := Handle(c, envs[0], reqs[0], st).state;
      HandleExtends(c, envs[0], reqs[0], st);
      var r := Run(c, envs[1..], reqs[1..], st1);
      ExtendsTransitive(st, st1, r);
      r
  }

  /** Distinct usernames and emails and duplicate-free lists hold after any sequence of requests. */
  lemma {:induction false} RunPreservesValid(c: Collaborators, envs: seq<Env>, reqs: seq<Request>, st: State)
    requires |envs| == |reqs|
    requires Valid(st)
    ensures Valid(Run(c, envs, reqs, st))
  {
    if reqs != [] {
      HandlePreservesValid(c, envs[0], reqs[0], st);
      RunPreservesValid(c, envs[1..], reqs[1..], Handle(c, envs[0], reqs[0], st).state);
    }
  }

  /**
    The token a signup returns, sent as "Bearer <token>" within seven days,
    lets the new user add any book id to their (empty) cart.
   */
  lemma SignupTokenOpensCart(c: Collaborators, env: Env, body: Body, later: Env, bookId: Id, st: State)
    requires Lawful(c) && Valid(st)
    requires Handle(c, env, Request(None, SignupRoute(body)), st).response.status == 201
    requires env.now <= later.now < env.now + TokenLifetime
    ensures var r1 := Handle(c, env, Request(None, SignupRoute(body)), st);
      var header := Some("Bearer" + [' '] + r1.response.reply.token);
      var r2 := Handle(c, later, Request(header, AddToCartRoute(bookId)), r1.state);
      && r2.response == Response(200, ListReply("Book added to cart", [bookId]))
  {
    var r1 := Handle(c, env, Request(None, SignupRoute(body)), st);
    var st1 := r1.state;
    SignedTokenGranted(c, "Bearer", env.freshId, env.now, later.now);
    SignupPreservesValid(c, body, env.freshId, env.salt, env.now, st);
    FindByIdUnique(st1, |st.accounts|);
    assert st1.accounts[|st.accounts|] == NewAccount(c, body, env.freshId, env.salt);
  }
}
