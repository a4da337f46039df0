/**
 * The request side of pkg/auth/jwt.go: reading "Authorization: Bearer
 * <token>", the two middlewares that put the token's claims into the
 * request context, and GetUserFromContext, which the handlers use to read
 * them back. Checking a token (HMAC-SHA256 with JWT_SECRET, expiry) is a
 * parameter: a Validator answers the claims of a good token and None for
 * any other.
 */
module Auth {
  import opened Wrappers
  import opened HttpHelpers

  /** The claims of a token: who the bearer is. */
  datatype Claims = Claims(userId: int, username: string, email: string)

  /** ValidateToken, as an oracle. */
  type Validator = string -> Option<Claims>

  /** A value kept in a request context. */
  datatype ContextValue = ClaimsValue(claims: Claims) | OtherValue(text: string)

  /**
   * The values of a request context by key; UserContextKey is "user". Go
   * keys the claims with a value of its unexported type contextKey
   * (pkg/auth/jwt.go:22-24), which no other package's "user" key can equal;
   * here keys are plain strings, so the two would be one key.
   */
  type Context = map<string, ContextValue>

  const UserContextKey := "user"

  // ------------------------------------------------------- strings.Split

  /** The parts joined back with single spaces. */
  function Join(parts: seq<string>): string
    requires |parts| >= 1
  {
    if |parts| == 1 then parts[0] else parts[0] + " " + Join(parts[1..])
  }

  /**
   * strings.Split(s, " "): the pieces between single spaces, so two
   * spaces in a row give an empty piece and "" gives [""].
   */
  function Split(s: string): (parts: seq<string>)
    ensures |parts| >= 1
    ensures forall i :: 0 <= i < |parts| ==> ' ' !in parts[i]
    ensures Join(parts) == s
  {
    if s == [] then [""]
    else if s[0] == ' ' then
      var rest := Split(s[1..]);
      assert s == "" + " " + Join(rest);
      [""] + rest
    else
      var rest := Split(s[1..]);
      var parts := [[s[0]] + rest[0]] + rest[1..];
      assert parts[1..] == rest[1..];
      parts
  }

  /** Splitting undoes joining when no part holds a space. */
  lemma {:induction false} SplitJoin(parts: seq<string>)
    requires |parts| >= 1
    requires forall i :: 0 <= i < |parts| ==> ' ' !in parts[i]
    ensures Split(Join(parts)) == parts
  {
    if |parts| == 1 {
      SplitWord(parts[0]);
    } else {
      SplitJoin(parts[1..]);
      SplitWordThenSpace(parts[0], Join(parts[1..]));
    }
  }

  lemma {:induction false} SplitWord(w: string)
    requires ' ' !in w
    ensures Split(w) == [w]
  {
    if w != [] {
      SplitWord(w[1..]);
    }
  }

  lemma {:induction false} SplitWordThenSpace(w: string, rest: string)
    requires ' ' !in w
    ensures Split(w + " " + rest) == [w] + Split(rest)
  {
    if w == [] {
      assert w + " " + rest == " " + rest;
      assert (" " + rest)[1..] == rest;
    } else {
      var s := w + " " + rest;
      assert s[0] == w[0] && s[1..] == w[1..] + " " + rest;
      SplitWordThenSpace(w[1..], rest);
      assert [w[0]] + w[1..] == w;
    }
  }

  // --------------------------------------------------- the Bearer header

  /**
   * The token of an Authorization header: exactly two space-separated
   * parts, the first exactly "Bearer".
   */
  function BearerToken(header: string): Option<string> {
    var parts := Split(header);
    if |parts| == 2 && parts[0] == "Bearer" then Some(parts[1]) else None
  }

  /** A header is accepted exactly when it is "Bearer ", then a token without spaces. */
  lemma BearerTokenExactly(header: string, token: string)
    ensures BearerToken(header) == Some(token) <==> header == "Bearer " + token && ' ' !in token
  {
    if header == "Bearer " + token && ' ' !in token {
      assert header == Join(["Bearer", token]);
      SplitJoin(["Bearer", token]);
    }
    if BearerToken(header) == Some(token) {
      var parts := Split(header);
      assert header == Join(parts) == parts[0] + " " + Join(parts[1..]);
      assert ' ' !in parts[1];
    }
  }

  /** The same condition on the header's characters: the prefix "Bearer ", then no space. */
  lemma BearerTokenShape(header: string)
    ensures BearerToken(header).Some? <==>
      |header| >= 7 && header[..7] == "Bearer " && ' ' !in header[7..]
    ensures BearerToken(header).Some? ==> BearerToken(header).value == header[7..]
  {
    if |header| >= 7 && header[..7] == "Bearer " {
      assert header == "Bearer " + header[7..];
      BearerTokenExactly(header, header[7..]);
    }
    if BearerToken(header).Some? {
      var t := BearerToken(header).value;
      BearerTokenExactly(header, t);
      assert header[7..] == t;
    }
  }

  /** The forms the format check refuses, whatever the token; "Bearer " alone passes with an empty token. */
  lemma MalformedHeaders()
    ensures BearerToken("bearer x").None?
    ensures BearerToken("Bearer").None?
    ensures BearerToken("Bearer a b").None?
    ensures BearerToken("Bearer  x").None?
    ensures BearerToken("").None?
    ensures BearerToken("Bearer ") == Some("")
  {
    BearerTokenShape("bearer x");
    assert "bearer x"[0] == 'b';
    BearerTokenShape("Bearer");
    BearerTokenShape("Bearer a b");
    assert "Bearer a b"[7..][1] == ' ';
    BearerTokenShape("Bearer  x");
    assert "Bearer  x"[7..][0] == ' ';
    BearerTokenShape("");
    BearerTokenShape("Bearer ");
  }

  // ---------------------------------------------------------- middleware

  /** What a middleware did: answered itself, or ran the wrapped handler once with this context. */
  datatype Gate = Reject(status: int) | Next(ctx: Context)

  /** The context with the token's claims under UserContextKey. */
  function WithClaims(ctx: Context, c: Claims): Context {
    ctx[UserContextKey := ClaimsValue(c)]
  }

  /** AuthMiddleware: no header, a malformed header and a bad token each answer 401. */
  function AuthMiddleware(header: string, validate: Validator, ctx: Context): (g: Gate)
    ensures g.Reject? ==> g.status == StatusUnauthorized
    ensures header == "" ==> g.Reject?
    ensures g.Next? <==> BearerToken(header).Some? && validate(BearerToken(header).value).Some?
    ensures g.Next? ==> g.ctx == WithClaims(ctx, validate(BearerToken(header).value).value)
  {
    if header == "" then Reject(StatusUnauthorized)
    else
      match BearerToken(header)
      case None => Reject(StatusUnauthorized)
      case Some(token) =>
        match validate(token)
        case None => Reject(StatusUnauthorized)
        case Some(c) => Next(WithClaims(ctx, c))
  }

  /** The wrapped handler runs exactly for "Bearer <token>" with a token the validator accepts. */
  lemma AuthMiddlewareAdmits(header: string, validate: Validator, ctx: Context)
    ensures AuthMiddleware(header, validate, ctx).Next? <==>
      |header| >= 7 && header[..7] == "Bearer " && ' ' !in header[7..] && validate(header[7..]).Some?
  {
    BearerTokenShape(header);
  }

  /**
   * OptionalAuthMiddleware: the wrapped handler always runs, with the
   * claims added only when the header and the token are good.
   */
  function OptionalAuthMiddleware(header: string, validate: Validator, ctx: Context): (g: Gate)
    ensures g.Next?
    ensures g.ctx == (match AuthMiddleware(header, validate, ctx) case Next(c) => c case Reject(_) => ctx)
  {
    if header != "" && BearerToken(header).Some? && validate(BearerToken(header).value).Some? then
      Next(WithClaims(ctx, validate(BearerToken(header).value).value))
    else Next(ctx)
  }

  /** GetUserFromContext: the claims under UserContextKey; anything else there is no user. */
  function GetUserFromContext(ctx: Context): (r: Option<Claims>)
    ensures r.Some? <==> UserContextKey in ctx && ctx[UserContextKey].ClaimsValue?
    ensures forall c :: r == Some(c) <==> UserContextKey in ctx && ctx[UserContextKey] == ClaimsValue(c)
  {
    if UserContextKey in ctx && ctx[UserContextKey].ClaimsValue? then Some(ctx[UserContextKey].claims)
    else None
  }

  /** Behind AuthMiddleware the handler always finds the token's claims. */
  lemma AuthThenContext(header: string, validate: Validator, ctx: Context)
    requires AuthMiddleware(header, validate, ctx).Next?
    ensures GetUserFromContext(AuthMiddleware(header, validate, ctx).ctx) == validate(BearerToken(header).value)
  {
  }
}
