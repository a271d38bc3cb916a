/**
  The `authenticateToken` middleware: the token is the second space-separated
  field of the Authorization header; no token means 401, a token that does not
  verify means 403, and otherwise the decoded id becomes the caller's identity.
 */
module Auth {
  import opened Prelude
  import opened External
  import opened Lists
  import opened Store

  /** Fields glued back together with `sep` between them (`Array.prototype.join`). */
  function Join(parts: seq<string>, sep: char): string
    requires |parts| >= 1
  {
    if |parts| == 1 then parts[0] else parts[0] + [sep] + Join(parts[1..], sep)
  }

  /**
    `String.prototype.split(sep)` for a one-character separator: at least one
    field, no field contains the separator, and joining the fields gives the
    string back.
   */
  function Split(s: string, sep: char): (parts: seq<string>)
    ensures |parts| >= 1
    ensures forall i :: 0 <= i < |parts| ==> sep !in parts[i]
    ensures Join(parts, sep) == s
    decreases |s|
  {
    match FirstIndex(s, (ch: char) => ch == sep)
    case None => [s]
    case Some(i) =>
      var rest := Split(s[i + 1..], sep);
      assert s == s[..i] + [sep] + s[i + 1..];
      assert sep !in s[..i] by {
        forall j | 0 <= j < i
          ensures s[..i][j] != sep
        {
          assert s[..i][j] == s[j];
        }
      }
      [s[..i]] + rest
  }

  /** Splitting at the first separator: the part before it is the first field. */
  lemma SplitHead(a: string, b: string, sep: char)
    requires sep !in a
    ensures Split(a + [sep] + b, sep) == [a] + Split(b, sep)
  {
    var s := a + [sep] + b;
    var r := FirstIndex(s, (ch: char) => ch == sep);
    assert s[|a|] == sep;
    assert r == Some(|a|) by {
      forall j | 0 <= j < |a|
        ensures s[j] != sep
      {
        assert s[j] == a[j];
      }
    }
    assert s[..|a|] == a;
    assert s[|a| + 1..] == b;
  }

  /** A string without the separator is a single field. */
  lemma SplitNone(s: string, sep: char)
    requires sep !in s
    ensures Split(s, sep) == [s]
  {
  }

  /** `Split` inverts `Join` on fields free of the separator, so the split is the only one there is. */
  lemma {:induction false} SplitJoin(parts: seq<string>, sep: char)
    requires |parts| >= 1
    requires forall i :: 0 <= i < |parts| ==> sep !in parts[i]
    ensures Split(Join(parts, sep), sep) == parts
  {
    if |parts| == 1 {
      SplitNone(parts[0], sep);
    } else {
      SplitHead(parts[0], Join(parts[1..], sep), sep);
      SplitJoin(parts[1..], sep);
      assert parts == [parts[0]] + parts[1..];
    }
  }

  /** `authHeader && authHeader.split(" ")[1]`, keeping only a truthy (non-empty) result. */
  function BearerToken(header: Option<string>): (t: Option<Token>)
    ensures t.Some? ==> t.value != [] && ' ' !in t.value
    ensures t.Some? ==> header.Some? && exists scheme, rest ::
      && ' ' !in scheme
      && (rest == [] || rest[0] == ' ')
      && header.value == scheme + [' '] + t.value + rest
  {
    match header
    case None => None
    case Some(h) =>
      var fields := Split(h, ' ');
      if |fields| >= 2 && fields[1] != "" then
        var rest := if |fields| == 2 then "" else [' '] + Join(fields[2..], ' ');
        assert h == fields[0] + [' '] + fields[1] + rest by {
          assert fields == [fields[0]] + fields[1..];
          assert fields[1..] == [fields[1]] + fields[2..];
        }
        assert ' ' !in fields[0] && (rest == [] || rest[0] == ' ');
        Some(fields[1])
      else None
  }

  /** The scheme word is never inspected: any word, a space and a token yield that token. */
  lemma {:induction false} SchemeIgnored(scheme: string, token: Token)
    requires ' ' !in scheme && ' ' !in token && token != []
    ensures BearerToken(Some(scheme + [' '] + token)) == Some(token)
  {
  }

  /** A header without a space has no second field, so there is no token. */
  lemma {:induction false} NoSecondField(h: string)
    requires ' ' !in h
    ensures BearerToken(Some(h)) == None
  {
  }

  /**
    The token is exactly the text between the first and the second space (or
    the end): whatever follows it is ignored, and an empty second field means
    no token.
   */
  lemma {:induction false} SecondField(scheme: string, field: string, rest: string)
    requires ' ' !in scheme && ' ' !in field
    requires rest == [] || rest[0] == ' '
    ensures BearerToken(Some(scheme + [' '] + field + rest)) == if field == [] then None else Some(field)
  {
    var h := scheme + [' '] + field + rest;
    if rest == [] {
      assert h == scheme + [' '] + field;
      SplitHead(scheme, field, ' ');
      SplitNone(field, ' ');
    } else {
      assert h == scheme + [' '] + (field + [' '] + rest[1..]);
      SplitHead(scheme, field + [' '] + rest[1..], ' ');
      SplitHead(field, rest[1..], ' ');
    }
  }

  /** "Bearer " and "Bearer  tok": an empty second field yields no token. */
  lemma EmptySecondField(scheme: string, rest: string)
    requires ' ' !in scheme
    requires rest == [] || rest[0] == ' '
    ensures BearerToken(Some(scheme + [' '] + rest)) == None
  {
    assert scheme + [' '] + rest == scheme + [' '] + [] + rest;
    SecondField(scheme, [], rest);
  }

  datatype AuthResult = Denied(response: Response) | Granted(caller: Id)

  const TokenMissing := "Access denied. Token missing."
  const TokenInvalid := "Invalid or expired token."

  /**
    The middleware at second `now`: 401 without a token, 403 when verification
    fails, otherwise the verified id is handed on (no account lookup here).
   */
  function Authenticate(c: Collaborators, header: Option<string>, now: int): (r: AuthResult)
    ensures BearerToken(header).None? <==> r == Denied(Response(401, Message(TokenMissing)))
    ensures r.Granted? <==> BearerToken(header).Some? && c.verify(BearerToken(header).value, now).Some?
    ensures r.Granted? ==> c.verify(BearerToken(header).value, now) == Some(r.caller)
    ensures r.Denied? && BearerToken(header).Some? ==> r.response == Response(403, Message(TokenInvalid))
  {
    match BearerToken(header)
    case None => Denied(Response(401, Message(TokenMissing)))
    case Some(t) =>
      match c.verify(t, now)
      case None => Denied(Response(403, Message(TokenInvalid)))
      case Some(id) => Granted(id)
  }

  /** A token this service signed, sent after any scheme word within seven days, authenticates its id. */
  lemma SignedTokenGranted(c: Collaborators, scheme: string, id: Id, iat: int, now: int)
    requires Lawful(c)
    requires ' ' !in scheme
    requires iat <= now < iat + TokenLifetime
    ensures Authenticate(c, Some(scheme + [' '] + c.sign(id, iat)), now) == Granted(id)
  {
  }
}
