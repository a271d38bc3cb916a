/**
  The foreign collaborators the route handlers call: bcrypt, jsonwebtoken and
  zod's string-format checks. Their internals are not modelled; each is a
  function value handed to the handlers, and `Lawful` states the few facts
  about them the rest of the model relies on.
 */
module External {
  import opened Prelude

  /** Document ids (Mongo ObjectIds, or the `:bookId` route parameter) as one equality type. */
  type Id = string

  /** A signed JWT in compact form. */
  type Token = string

  /** `expiresIn: "7d"`, in seconds. */
  const TokenLifetime: int := 7 * 24 * 60 * 60

  datatype Collaborators = Collaborators(
    /** `bcrypt.hash(password, 10)`; the salt bcrypt draws at random is an argument. */
    hash: (string, nat) -> string,
    /** `bcrypt.compare(password, storedHash)`. */
    compare: (string, string) -> bool,
    /** `jwt.sign({ id }, secret, { expiresIn: "7d" })` issued at the given second. */
    sign: (Id, int) -> Token,
    /** `jwt.verify(token, secret)` at the given second: the embedded id, or failure. */
    verify: (Token, int) -> Option<Id>,
    /** zod's `.email()` syntax check. */
    isEmail: string -> bool,
    /** zod's `.url()` syntax check. */
    isUrl: string -> bool
  )

  /**
    What bcrypt and JWT guarantee: a password matches its own hash whatever the
    salt; a signed token is a non-empty word without spaces (compact JWS uses
    base64url and dots); and a token verifies to the id it was signed with until
    seven days after it was issued.
   */
  ghost predicate Lawful(c: Collaborators) {
    && (forall p, salt :: c.compare(p, c.hash(p, salt)))
    && (forall id, iat :: c.sign(id, iat) != [] && ' ' !in c.sign(id, iat))
    && (forall id, iat, t :: iat <= t < iat + TokenLifetime ==> c.verify(c.sign(id, iat), t) == Some(id))
  }

  /** The hash of a password matches that password (first law, instantiated). */
  lemma HashMatches(c: Collaborators, p: string, salt: nat)
    requires Lawful(c)
    ensures c.compare(p, c.hash(p, salt))
  {
  }

  /** A token still inside its lifetime verifies to the id it carries (third law, instantiated). */
  lemma SignedVerifies(c: Collaborators, id: Id, iat: int, t: int)
    requires Lawful(c)
    requires iat <= t < iat + TokenLifetime
    ensures c.verify(c.sign(id, iat), t) == Some(id)
  {
  }
}
