/**
  The account routes: `signupSchema` and `signinSchema`, POST /signup and
  POST /signin. Neither route goes through the token middleware.
 */
module Accounts {
  import opened Prelude
  import opened External
  import opened Lists
  import opened Validation
  import opened Store

  const UsernameTooShort := "Username must be at least 4 characters"
  const InvalidEmail := "Invalid email address"
  const PasswordTooShort := "Password must be at least 5 characters"
  const AddressTooShort := "Address must be at least 3 characters"

  const SignupSchema: Schema := [
    FieldRule("username", MinLength(4, UsernameTooShort)),
    FieldRule("email", Email(InvalidEmail)),
    FieldRule("password", MinLength(5, PasswordTooShort)),
    FieldRule("address", MinLength(3, AddressTooShort))
  ]

  const SigninSchema: Schema := [
    FieldRule("email", Email(InvalidEmail)),
    FieldRule("password", MinLength(5, PasswordTooShort))
  ]

  const UsernameTaken := "Username already taken"
  const EmailTaken := "Email already registered"
  const BadCredentials := "Invalid email or password"
  /** The catch-all reply of both routes (a failed save lands here). */
  const InternalError := "Internal server error"

  /** The four signup fields, when they are all present strings. */
  predicate SignupShaped(body: Body) {
    && "username" in body && body["username"].JString?
    && "email" in body && body["email"].JString?
    && "password" in body && body["password"].JString?
    && "address" in body && body["address"].JString?
  }

  lemma SignupFieldsPresent(c: Collaborators, body: Body)
    requires Issues(c, SignupSchema, body) == []
    ensures SignupShaped(body)
    ensures |Text(body, "username")| >= 4 && c.isEmail(Text(body, "email"))
    ensures |Text(body, "password")| >= 5 && |Text(body, "address")| >= 3
  {
    assert Accepts(c, SignupSchema[0], body) && Accepts(c, SignupSchema[1], body);
    assert Accepts(c, SignupSchema[2], body) && Accepts(c, SignupSchema[3], body);
  }

  /** The two signin fields, when both are present strings. */
  predicate SigninShaped(body: Body) {
    "email" in body && body["email"].JString? && "password" in body && body["password"].JString?
  }

  /** The account a successful signup stores: hashed password, default role, empty lists. */
  function NewAccount(c: Collaborators, body: Body, id: Id, salt: nat): (a: Account)
    requires SignupShaped(body)
    ensures PublicView(a) == PublicUser(id, Text(body, "username"), Text(body, "email"))
    ensures Lawful(c) ==> c.compare(Text(body, "password"), a.passwordHash)
    ensures a.address == Text(body, "address") && a.role == UserRole
    ensures a.cart == [] && a.favourites == []
  {
    Account(id, Text(body, "username"), Text(body, "email"), c.hash(Text(body, "password"), salt),
            Text(body, "address"), UserRole, [], [])
  }

  /**
    POST /signup with document id `newId` for the new user, bcrypt salt `salt`
    and clock `now`. Validation failure answers the first issue; then a taken
    username, then a taken email; otherwise exactly one account is appended and
    the reply carries a fresh token and the public view of that account.
   */
  function Signup(c: Collaborators, body: Body, newId: Id, salt: nat, now: int, st: State): (r: Outcome)
    ensures Issues(c, SignupSchema, body) != [] ==> r == Reject(400, Issues(c, SignupSchema, body)[0], st)
    ensures Issues(c, SignupSchema, body) == [] ==> SignupShaped(body)
    ensures (Issues(c, SignupSchema, body) == [] && SignupShaped(body)
             && FindByUsername(st.accounts, Text(body, "username")).Some?) ==>
      r == Reject(400, UsernameTaken, st)
    ensures (Issues(c, SignupSchema, body) == [] && SignupShaped(body)
             && FindByUsername(st.accounts, Text(body, "username")).None?
             && FindByEmail(st.accounts, Text(body, "email")).Some?) ==>
      r == Reject(400, EmailTaken, st)
    ensures (Issues(c, SignupSchema, body) == [] && SignupShaped(body)
             && FindByUsername(st.accounts, Text(body, "username")).None?
             && FindByEmail(st.accounts, Text(body, "email")).None?
             && FindById(st.accounts, newId).Some?) ==>
      r == Reject(500, InternalError, st)
    ensures r.response.status != 201 ==> r.state == st
    ensures r.response.status == 201 <==>
      && Issues(c, SignupSchema, body) == []
      && SignupShaped(body)
      && FindByUsername(st.accounts, Text(body, "username")).None?
      && FindByEmail(st.accounts, Text(body, "email")).None?
      && FindById(st.accounts, newId).None?
    ensures r.response.status == 201 ==>
      && SignupShaped(body)
      && r.state == st.(accounts := st.accounts + [NewAccount(c, body, newId, salt)])
      && r.response.reply == TokenReply("Signup successful", c.sign(newId, now), PublicView(NewAccount(c, body, newId, salt)))
  {
    var issues := Issues(c, SignupSchema, body);
    if issues != [] then Reject(400, issues[0], st)
    else
      SignupFieldsPresent(c, body);
      if FindByUsername(st.accounts, Text(body, "username")).Some? then Reject(400, UsernameTaken, st)
      else if FindByEmail(st.accounts, Text(body, "email")).Some? then Reject(400, EmailTaken, st)
      else if FindById(st.accounts, newId).Some? then Reject(500, InternalError, st)
      else
        var a := NewAccount(c, body, newId, salt);
        Outcome(Response(201, TokenReply("Signup successful", c.sign(newId, now), PublicView(a))), st.(accounts := st.accounts + [a]))
  }

  /**
    POST /signin at clock `now`. Validation failure answers the first issue;
    an unknown email and a wrong password both answer the same generic 400;
    otherwise 200 with a token for the matched account. The state never changes.
   */
  function Signin(c: Collaborators, body: Body, now: int, st: State): (r: Outcome)
    ensures r.state == st
    ensures Issues(c, SigninSchema, body) != [] ==> r.response == Response(400, Message(Issues(c, SigninSchema, body)[0]))
    ensures Issues(c, SigninSchema, body) == [] ==> SigninShaped(body)
    ensures (Issues(c, SigninSchema, body) == [] && SigninShaped(body)
             && (|| FindByEmail(st.accounts, Text(body, "email")).None?
                 || !c.compare(Text(body, "password"), st.accounts[FindByEmail(st.accounts, Text(body, "email")).value].passwordHash))) ==>
      r == Reject(400, BadCredentials, st)
    ensures r.response.status == 200 <==>
      && Issues(c, SigninSchema, body) == []
      && SigninShaped(body)
      && FindByEmail(st.accounts, Text(body, "email")).Some?
      && c.compare(Text(body, "password"), st.accounts[FindByEmail(st.accounts, Text(body, "email")).value].passwordHash)
    ensures r.response.status == 200 ==>
      && SigninShaped(body)
      && FindByEmail(st.accounts, Text(body, "email")).Some?
      && var a := st.accounts[FindByEmail(st.accounts, Text(body, "email")).value];
         r.response.reply == TokenReply("Signin successful", c.sign(a.id, now), PublicView(a))
    ensures r.response.status != 200 ==> r.response.status == 400
  {
    var issues := Issues(c, SigninSchema, body);
    if issues != [] then Reject(400, issues[0], st)
    else
      assert Accepts(c, SigninSchema[0], body) && Accepts(c, SigninSchema[1], body);
      match FindByEmail(st.accounts, Text(body, "email"))
      case None => Reject(400, BadCredentials, st)
      case Some(i) =>
        var a := st.accounts[i];
        if !c.compare(Text(body, "password"), a.passwordHash) then Reject(400, BadCredentials, st)
        else Outcome(Response(200, TokenReply("Signin successful", c.sign(a.id, now), PublicView(a))), st)
  }

  /** A successful signup keeps ids, usernames and emails distinct and the new lists empty. */
  lemma SignupPreservesValid(c: Collaborators, body: Body, newId: Id, salt: nat, now: int, st: State)
    requires Valid(st)
    ensures Valid(Signup(c, body, newId, salt, now, st).state)
  {
  }

  /** Signing up twice with the same body is refused the second time; the username check wins. */
  lemma SignupTwiceRefused(c: Collaborators, body: Body, id1: Id, id2: Id, salt1: nat, salt2: nat, t1: int, t2: int, st: State)
    requires Signup(c, body, id1, salt1, t1, st).response.status == 201
    ensures Signup(c, body, id2, salt2, t2, Signup(c, body, id1, salt1, t1, st).state) ==
      Reject(400, UsernameTaken, Signup(c, body, id1, salt1, t1, st).state)
  {
    var st1 := Signup(c, body, id1, salt1, t1, st).state;
    var a := NewAccount(c, body, id1, salt1);
    assert st1.accounts[|st.accounts|] == a;
  }

  /** The username collision is reported even when the email collides too. */
  lemma UsernameCheckedFirst(c: Collaborators, body: Body, newId: Id, salt: nat, now: int, st: State)
    requires Issues(c, SignupSchema, body) == []
    requires SignupShaped(body)
    requires FindByUsername(st.accounts, Text(body, "username")).Some?
    requires FindByEmail(st.accounts, Text(body, "email")).Some?
    ensures Signup(c, body, newId, salt, now, st) == Reject(400, UsernameTaken, st)
  {
  }

  /** An unknown email and a wrong password get byte-for-byte the same answer. */
  lemma SigninFailuresIndistinguishable(c: Collaborators, unknown: Body, wrong: Body, now: int, st: State)
    requires Issues(c, SigninSchema, unknown) == [] && Issues(c, SigninSchema, wrong) == []
    requires "email" in unknown && unknown["email"].JString?
    requires FindByEmail(st.accounts, Text(unknown, "email")).None?
    requires "email" in wrong && wrong["email"].JString? && "password" in wrong && wrong["password"].JString?
    requires FindByEmail(st.accounts, Text(wrong, "email")).Some?
    requires !c.compare(Text(wrong, "password"), st.accounts[FindByEmail(st.accounts, Text(wrong, "email")).value].passwordHash)
    ensures Signin(c, unknown, now, st) == Signin(c, wrong, now, st)
    ensures Signin(c, unknown, now, st) == Reject(400, BadCredentials, st)
  {
  }

  /** A validation failure on signin reports the validator's message, never the generic one. */
  lemma SigninValidationNotGeneric(c: Collaborators, body: Body, now: int, st: State)
    requires Issues(c, SigninSchema, body) != []
    ensures Signin(c, body, now, st).response.reply.message != BadCredentials
  {
  }

  /** After signup, signing in with the same email and password succeeds for the new account. */
  lemma SignupThenSignin(c: Collaborators, body: Body, signin: Body, newId: Id, salt: nat, t1: int, t2: int, st: State)
    requires Lawful(c) && Valid(st)
    requires Signup(c, body, newId, salt, t1, st).response.status == 201
    requires signin == map["email" := body["email"], "password" := body["password"]]
    ensures Signin(c, signin, t2, Signup(c, body, newId, salt, t1, st).state).response ==
      Response(200, TokenReply("Signin successful", c.sign(newId, t2), PublicView(NewAccount(c, body, newId, salt))))
  {
    var st1 := Signup(c, body, newId, salt, t1, st).state;
    var a := NewAccount(c, body, newId, salt);
    SignupFieldsPresent(c, body);
    assert Accepts(c, SigninSchema[0], signin) && Accepts(c, SigninSchema[1], signin);
    assert Issues(c, SigninSchema, signin) == [];
    SignupPreservesValid(c, body, newId, salt, t1, st);
    FindByEmailUnique(st1, |st.accounts|);
    assert st1.accounts[|st.accounts|] == a;
    HashMatches(c, Text(body, "password"), salt);
  }

  /** The signup token verifies, for seven days, to the id of the account signup created. */
  lemma SignupTokenVerifies(c: Collaborators, body: Body, newId: Id, salt: nat, now: int, t: int, st: State)
    requires Lawful(c)
    requires Signup(c, body, newId, salt, now, st).response.status == 201
    requires now <= t < now + TokenLifetime
    ensures var reply := Signup(c, body, newId, salt, now, st).response.reply;
      && reply.TokenReply?
      && c.verify(reply.token, t) == Some(reply.user.id)
      && reply.user.id == newId
      && Signup(c, body, newId, salt, now, st).state.accounts[|st.accounts|].id == newId
  {
  }

  /** The signin token verifies, for seven days, to the id of the account that matched. */
  lemma SigninTokenVerifies(c: Collaborators, body: Body, now: int, t: int, st: State)
    requires Lawful(c)
    requires Signin(c, body, now, st).response.status == 200
    requires now <= t < now + TokenLifetime
    ensures var reply := Signin(c, body, now, st).response.reply;
      && reply.TokenReply?
      && c.verify(reply.token, t) == Some(reply.user.id)
      && exists i :: 0 <= i < |st.accounts| && st.accounts[i].id == reply.user.id && st.accounts[i].email == reply.user.email
  {
  }

  /** Signup's validation message names the first failing field in schema order: username, email, password, address. */
  lemma SignupSchemaOrder(c: Collaborators, body: Body, newId: Id, salt: nat, now: int, st: State)
    ensures var r := Signup(c, body, newId, salt, now, st);
      && ("username" in body && body["username"].JString? && |body["username"].s| < 4 ==>
            r == Reject(400, UsernameTooShort, st))
      && (Accepts(c, SignupSchema[0], body) && "email" in body && body["email"].JString? && !c.isEmail(body["email"].s) ==>
            r == Reject(400, InvalidEmail, st))
      && (Accepts(c, SignupSchema[0], body) && Accepts(c, SignupSchema[1], body)
          && "password" in body && body["password"].JString? && |body["password"].s| < 5 ==>
            r == Reject(400, PasswordTooShort, st))
      && (Accepts(c, SignupSchema[0], body) && Accepts(c, SignupSchema[1], body) && Accepts(c, SignupSchema[2], body)
          && "address" in body && body["address"].JString? && |body["address"].s| < 3 ==>
            r == Reject(400, AddressTooShort, st))
  {
    var issues := Issues(c, SignupSchema, body);
    if issues != [] {
      var k :| 0 <= k < |SignupSchema| && FirstRejected(c, SignupSchema, body, k) && Some(issues[0]) == FieldIssue(c, SignupSchema[k], body);
      // A rejected field pins down k: every field before it is accepted.
      if k > 0 { assert Accepts(c, SignupSchema[0], body); }
      if k > 1 { assert Accepts(c, SignupSchema[1], body); }
      if k > 2 { assert Accepts(c, SignupSchema[2], body); }
    } else {
      SignupFieldsPresent(c, body);
    }
  }

  /**
    A successful signup appends exactly one account holding the submitted
    username, email and address, the hash of the password rather than the
    password, the default role and empty lists; the existing accounts stay as they were.
   */
  lemma SignupCreatesAccount(c: Collaborators, body: Body, newId: Id, salt: nat, now: int, st: State)
    requires Signup(c, body, newId, salt, now, st).response.status == 201
    ensures var s := Signup(c, body, newId, salt, now, st).state;
      && SignupShaped(body)
      && |s.accounts| == |st.accounts| + 1
      && s.accounts[..|st.accounts|] == st.accounts
      && s.books == st.books
      && var a := s.accounts[|st.accounts|];
         && a.id == newId
         && a.username == body["username"].s && a.email == body["email"].s && a.address == body["address"].s
         && a.passwordHash == c.hash(body["password"].s, salt)
         && a.role == UserRole && a.cart == [] && a.favourites == []
  {
  }
}
