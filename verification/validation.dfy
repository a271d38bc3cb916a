/**
  Request-body validation as the zod schemas in the routes perform it: each
  schema is an ordered list of (key, rule) pairs, `safeParse` collects every
  issue in key order, and a handler answers with the first issue's message.
 */
module Validation {
  import opened Prelude
  import opened External

  /** A JSON value from the request body; only the kind of arrays and objects matters here. */
  datatype Json = JNull | JBool(b: bool) | JNumber(n: real) | JString(s: string) | JArray | JObject

  /** A parsed JSON object body: a key that is not in the map was not sent. */
  type Body = map<string, Json>

  /** The check a schema attaches to one field, with the schema's custom message. */
  datatype Rule =
    | MinLength(min: nat, message: string)   // z.string().min(min, message)
    | Email(message: string)                  // z.string().email(message)
    | Url(message: string)                    // z.string().url(message)
    | NonNegative(message: string)            // z.number().nonnegative(message)

  datatype FieldRule = FieldRule(key: string, rule: Rule)

  type Schema = seq<FieldRule>

  /** The kind name zod uses in its "Expected …, received …" message. */
  function KindName(v: Json): string {
    match v
    case JNull => "null"
    case JBool(_) => "boolean"
    case JNumber(_) => "number"
    case JString(_) => "string"
    case JArray => "array"
    case JObject => "object"
  }

  /** The JSON kind a rule's base schema expects. */
  function ExpectedKind(rule: Rule): string {
    if rule.NonNegative? then "number" else "string"
  }

  predicate HasKind(rule: Rule, v: Json) {
    KindName(v) == ExpectedKind(rule)
  }

  /** The refinement check itself, on a value of the expected kind. */
  predicate Holds(c: Collaborators, rule: Rule, v: Json)
    requires HasKind(rule, v)
  {
    match rule
    case MinLength(min, _) => |v.s| >= min
    case Email(_) => c.isEmail(v.s)
    case Url(_) => c.isUrl(v.s)
    case NonNegative(_) => v.n >= 0.0
  }

  /** Reference reading of a schema entry: the key is present, of the right kind, and passes its check. */
  predicate Accepts(c: Collaborators, f: FieldRule, body: Body) {
    f.key in body && HasKind(f.rule, body[f.key]) && Holds(c, f.rule, body[f.key])
  }

  /**
    The issue zod reports for one field, if any: "Required" for an absent key,
    "Expected <kind>, received <kind>" for a value of the wrong kind, and the
    schema's own message when the refinement fails.
   */
  function FieldIssue(c: Collaborators, f: FieldRule, body: Body): (issue: Option<string>)
    ensures issue.None? <==> Accepts(c, f, body)
  {
    if f.key !in body then Some("Required")
    else if !HasKind(f.rule, body[f.key]) then
      Some("Expected " + ExpectedKind(f.rule) + ", received " + KindName(body[f.key]))
    else if !Holds(c, f.rule, body[f.key]) then Some(f.rule.message)
    else None
  }

  /**
    Every issue `safeParse` finds, in schema order (`parsed.error.errors`). It is
    empty exactly when every field is accepted; otherwise its head is the issue
    of the first field that is not.
   */
  function Issues(c: Collaborators, schema: Schema, body: Body): (r: seq<string>)
    ensures r == [] <==> forall i :: 0 <= i < |schema| ==> Accepts(c, schema[i], body)
    ensures r != [] ==> exists k :: 0 <= k < |schema| && FirstRejected(c, schema, body, k) && Some(r[0]) == FieldIssue(c, schema[k], body)
  {
    if schema == [] then []
    else
      var rest := Issues(c, schema[1..], body);
      assert forall i :: 0 < i < |schema| ==> schema[i] == schema[1..][i - 1];
      match FieldIssue(c, schema[0], body)
      case Some(m) => [m] + rest
      case None =>
        assert rest != [] ==> exists k :: 0 <= k < |schema| && FirstRejected(c, schema, body, k) && Some(rest[0]) == FieldIssue(c, schema[k], body) by {
          if rest != [] {
            var k :| 0 <= k < |schema[1..]| && FirstRejected(c, schema[1..], body, k) && Some(rest[0]) == FieldIssue(c, schema[1..][k], body);
            assert FirstRejected(c, schema, body, k + 1);
          }
        }
        rest
  }

  /** Field `k` is the first one in schema order that is not accepted. */
  predicate FirstRejected(c: Collaborators, schema: Schema, body: Body, k: nat)
    requires k < |schema|
  {
    !Accepts(c, schema[k], body) && forall i :: 0 <= i < k ==> Accepts(c, schema[i], body)
  }

  /** The string a schema accepted under `key`. */
  function Text(body: Body, key: string): string
    requires key in body && body[key].JString?
  {
    body[key].s
  }

  /** The number a schema accepted under `key`. */
  function Number(body: Body, key: string): real
    requires key in body && body[key].JNumber?
  {
    body[key].n
  }
}
