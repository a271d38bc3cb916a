/**
  The cart and favourites routes: one add and one remove transition,
  parametrised by which list of the caller's account they act on. The two
  kinds differ only in their messages and in the catalog check that adding to
  favourites performs first and adding to the cart does not.
 */
module Membership {
  import opened Prelude
  import opened External
  import opened Lists
  import opened Store

  datatype ListKind = Cart | Favourites

  function ListOf(a: Account, k: ListKind): seq<Id> {
    match k
    case Cart => a.cart
    case Favourites => a.favourites
  }

  function WithList(a: Account, k: ListKind, l: seq<Id>): (b: Account)
    ensures ListOf(b, k) == l
  {
    match k
    case Cart => a.(cart := l)
    case Favourites => a.(favourites := l)
  }

  function AlreadyPresent(k: ListKind): string {
    match k
    case Cart => "Book is already in cart"
    case Favourites => "Book already in favourites"
  }

  function Added(k: ListKind): string {
    match k
    case Cart => "Book added to cart"
    case Favourites => "Book added to favourites"
  }

  function NotPresent(k: ListKind): string {
    match k
    case Cart => "Book is not in cart"
    case Favourites => "Book is not in favourites"
  }

  function Removed(k: ListKind): string {
    match k
    case Cart => "Book removed from cart"
    case Favourites => "Book removed from favourites"
  }

  const BookNotFound := "Book not found"
  /** The catch-all reply; reached when `user` is null and `user.cart` throws. */
  const ServerError := "Server error"

  /**
    `st'` differs from `st` only in list `k` of account `i`, which is now `l`:
    every other field of that account, every other account and the catalog
    are as they were.
   */
  predicate OnlyListChanged(st: State, st': State, i: nat, k: ListKind, l: seq<Id>)
    requires i < |st.accounts|
  {
    && |st'.accounts| == |st.accounts|
    && st'.accounts[i] == WithList(st.accounts[i], k, l)
    && (forall j :: 0 <= j < |st.accounts| && j != i ==> st'.accounts[j] == st.accounts[j])
    && st'.books == st.books
  }

  /**
    PUT /addtocart/:bookId and /addtofavourites/:bookId for the authenticated
    `caller`. Favourites first answers 404 for a book not in the catalog; then
    a missing account is a 500, an id already in the list a 400 with the state
    unchanged, and otherwise the id is appended and the new list returned.
   */
  function AddToList(k: ListKind, caller: Id, bookId: Id, st: State): (r: Outcome)
    ensures k == Favourites && bookId !in st.books ==> r == Reject(404, BookNotFound, st)
    ensures (k == Cart || bookId in st.books) && FindById(st.accounts, caller).None? ==>
      r == Reject(500, ServerError, st)
    ensures r.response.status != 200 ==> r.state == st
    ensures r.response.status == 200 <==>
      && (k == Cart || bookId in st.books)
      && FindById(st.accounts, caller).Some?
      && bookId !in ListOf(st.accounts[FindById(st.accounts, caller).value], k)
    ensures r.response.status == 200 ==>
      var i := FindById(st.accounts, caller).value;
      var l' := ListOf(st.accounts[i], k) + [bookId];
      && OnlyListChanged(st, r.state, i, k, l')
      && r.response.reply == ListReply(Added(k), l')
  {
    if k == Favourites && bookId !in st.books then Reject(404, BookNotFound, st)
    else match FindById(st.accounts, caller)
      case None => Reject(500, ServerError, st)
      case Some(i) =>
        var a := st.accounts[i];
        if bookId in ListOf(a, k) then Reject(400, AlreadyPresent(k), st)
        else
          var l' := ListOf(a, k) + [bookId];
          Outcome(Response(200, ListReply(Added(k), l')), st.(accounts := st.accounts[i := WithList(a, k, l')]))
  }

  /**
    PUT /removefromcart/:bookId and /removefromfavourites/:bookId. No catalog
    check: a missing account is a 500, an id not in the list a 400 with the
    state unchanged, and otherwise every occurrence of the id is filtered out.
   */
  function RemoveFromList(k: ListKind, caller: Id, bookId: Id, st: State): (r: Outcome)
    ensures FindById(st.accounts, caller).None? ==> r == Reject(500, ServerError, st)
    ensures r.response.status != 200 ==> r.state == st
    ensures r.response.status == 200 <==>
      FindById(st.accounts, caller).Some? && bookId in ListOf(st.accounts[FindById(st.accounts, caller).value], k)
    ensures r.response.status == 200 ==>
      var i := FindById(st.accounts, caller).value;
      var l' := Without(ListOf(st.accounts[i], k), bookId);
      && OnlyListChanged(st, r.state, i, k, l')
      && r.response.reply == ListReply(Removed(k), l')
  {
    match FindById(st.accounts, caller)
    case None => Reject(500, ServerError, st)
    case Some(i) =>
      var a := st.accounts[i];
      if bookId !in ListOf(a, k) then Reject(400, NotPresent(k), st)
      else
        var l' := Without(ListOf(a, k), bookId);
        Outcome(Response(200, ListReply(Removed(k), l')), st.(accounts := st.accounts[i := WithList(a, k, l')]))
  }

  /** routes/cart.js, add: a duplicate is refused, an id is appended without any catalog lookup. */
  function AddToCart(caller: Id, bookId: Id, st: State): (r: Outcome)
    ensures forall i :: FindById(st.accounts, caller) == Some(i) && bookId in st.accounts[i].cart ==>
      r == Reject(400, "Book is already in cart", st)
    ensures forall i :: FindById(st.accounts, caller) == Some(i) && bookId !in st.accounts[i].cart ==>
      && r.response == Response(200, ListReply("Book added to cart", st.accounts[i].cart + [bookId]))
      && r.state.accounts == st.accounts[i := st.accounts[i].(cart := st.accounts[i].cart + [bookId])]
      && r.state.books == st.books
  {
    AddToList(Cart, caller, bookId, st)
  }

  /** routes/cart.js, remove: an absent id is refused, a present one filtered out everywhere. */
  function RemoveFromCart(caller: Id, bookId: Id, st: State): (r: Outcome)
    ensures forall i :: FindById(st.accounts, caller) == Some(i) && bookId !in st.accounts[i].cart ==>
      r == Reject(400, "Book is not in cart", st)
    ensures forall i :: FindById(st.accounts, caller) == Some(i) && bookId in st.accounts[i].cart ==>
      && r.response == Response(200, ListReply("Book removed from cart", Without(st.accounts[i].cart, bookId)))
      && r.state.accounts == st.accounts[i := st.accounts[i].(cart := Without(st.accounts[i].cart, bookId))]
      && r.state.books == st.books
  {
    RemoveFromList(Cart, caller, bookId, st)
  }

  /** routes/favourite.js, add: the catalog check comes first, then the duplicate check. */
  function AddToFavourites(caller: Id, bookId: Id, st: State): (r: Outcome)
    ensures bookId !in st.books ==> r == Reject(404, "Book not found", st)
    ensures bookId in st.books ==> forall i :: FindById(st.accounts, caller) == Some(i) && bookId in st.accounts[i].favourites ==>
      r == Reject(400, "Book already in favourites", st)
    ensures bookId in st.books ==> forall i :: FindById(st.accounts, caller) == Some(i) && bookId !in st.accounts[i].favourites ==>
      && r.response == Response(200, ListReply("Book added to favourites", st.accounts[i].favourites + [bookId]))
      && r.state.accounts == st.accounts[i := st.accounts[i].(favourites := st.accounts[i].favourites + [bookId])]
      && r.state.books == st.books
  {
    AddToList(Favourites, caller, bookId, st)
  }

  /** routes/favourite.js, remove: no catalog check, an absent id is refused, a present one filtered out. */
  function RemoveFromFavourites(caller: Id, bookId: Id, st: State): (r: Outcome)
    ensures forall i :: FindById(st.accounts, caller) == Some(i) && bookId !in st.accounts[i].favourites ==>
      r == Reject(400, "Book is not in favourites", st)
    ensures forall i :: FindById(st.accounts, caller) == Some(i) && bookId in st.accounts[i].favourites ==>
      && r.response == Response(200, ListReply("Book removed from favourites", Without(st.accounts[i].favourites, bookId)))
      && r.state.accounts == st.accounts[i := st.accounts[i].(favourites := Without(st.accounts[i].favourites, bookId))]
      && r.state.books == st.books
  {
    RemoveFromList(Favourites, caller, bookId, st)
  }

  /** Adding keeps every list duplicate-free and every account key distinct. */
  lemma AddPreservesValid(k: ListKind, caller: Id, bookId: Id, st: State)
    requires Valid(st)
    ensures Valid(AddToList(k, caller, bookId, st).state)
  {
  }

  /** Removing keeps every list duplicate-free and every account key distinct. */
  lemma RemovePreservesValid(k: ListKind, caller: Id, bookId: Id, st: State)
    requires Valid(st)
    ensures Valid(RemoveFromList(k, caller, bookId, st).state)
  {
    var r := RemoveFromList(k, caller, bookId, st);
    if r.response.status == 200 {
      var i := FindById(st.accounts, caller).value;
      WithoutNoDup(ListOf(st.accounts[i], k), bookId);
    }
  }

  /** Adding an id the list lacked and then removing it restores the original state. */
  lemma AddThenRemoveRestores(k: ListKind, caller: Id, bookId: Id, st: State)
    requires AddToList(k, caller, bookId, st).response.status == 200
    ensures RemoveFromList(k, caller, bookId, AddToList(k, caller, bookId, st).state).state == st
  {
    var i := FindById(st.accounts, caller).value;
    var a := st.accounts[i];
    var st1 := AddToList(k, caller, bookId, st).state;
    assert FindById(st1.accounts, caller) == Some(i) by {
      assert forall j :: 0 <= j < i ==> st1.accounts[j] == st.accounts[j];
    }
    AppendThenWithout(ListOf(a, k), bookId);
    var st2 := RemoveFromList(k, caller, bookId, st1).state;
    assert st2.accounts[i] == a by {
      match k
      case Cart =>
      case Favourites =>
    }
    assert st2.accounts == st.accounts;
  }

  /** Repeating a successful add is refused with the list's "already" message (not idempotent by design). */
  lemma AddTwiceRefused(k: ListKind, caller: Id, bookId: Id, st: State)
    requires AddToList(k, caller, bookId, st).response.status == 200
    ensures AddToList(k, caller, bookId, AddToList(k, caller, bookId, st).state).response.status == 400
  {
  }

  /** The cart accepts an id that names no book at all, provided the caller exists and lacks it. */
  lemma CartSkipsCatalog(caller: Id, bookId: Id, st: State)
    requires bookId !in st.books
    requires FindById(st.accounts, caller).Some?
    requires bookId !in st.accounts[FindById(st.accounts, caller).value].cart
    ensures AddToCart(caller, bookId, st).response.status == 200
  {
  }

  /** Favourites reports a missing book before it looks the caller up: 404 even for an unknown caller. */
  lemma FavouritesCatalogFirst(caller: Id, bookId: Id, st: State)
    requires bookId !in st.books
    requires FindById(st.accounts, caller).None?
    ensures AddToFavourites(caller, bookId, st).response.status == 404
    ensures AddToCart(caller, bookId, st).response.status == 500
  {
  }

  /** Removing from favourites works for an id whose book has left the catalog. */
  lemma FavouritesRemoveSkipsCatalog(caller: Id, bookId: Id, st: State)
    requires bookId !in st.books
    requires FindById(st.accounts, caller).Some?
    requires bookId in st.accounts[FindById(st.accounts, caller).value].favourites
    ensures RemoveFromFavourites(caller, bookId, st).response.status == 200
  {
  }
}
