/**
 * The Express bearer-token middleware: a request without an `Authorization` header, with no
 * token after the scheme, or with a token the verifier refuses is answered 401; otherwise the
 * verified payload becomes `req.user` and the next handler runs.
 */
module AuthMiddleware {
  import opened Wrappers
  import opened JsValues
  import opened Text

  const MissingHeader: string := "No se proporcionó token de autenticación"
  const BadFormat: string := "Formato de token inválido"
  const Refused: string := "Token inválido o expirado"

  /** `authHeader.split(" ")[1]`: the second space-separated piece, undefined when there is none. */
  function BearerToken(header: string): (token: Option<string>)
    ensures token.Some? <==> ' ' in header
    ensures token.Some? ==> ' ' !in token.value
  {
    var parts := Split(header, ' ');
    if |parts| >= 2 then
      assert parts[1] in parts;
      Some(parts[1])
    else None
  }

  /** The token is what follows the first space, up to the next one. */
  lemma BearerTokenAfterScheme(scheme: string, rest: string)
    requires ' ' !in scheme
    ensures BearerToken(scheme + " " + rest) == Some(Split(rest, ' ')[0])
  {
    var h := scheme + " " + rest;
    IndexOfAfter(scheme, ' ', rest);
    assert h[IndexOf(h, ' ') + 1..] == rest;
  }

  /** `Bearer <token>` yields the token, for a token without spaces. */
  lemma BearerTokenOf(token: string)
    requires ' ' !in token
    ensures BearerToken("Bearer " + token) == Some(token)
  {
    assert "Bearer " + token == "Bearer" + " " + token;
    BearerTokenAfterScheme("Bearer", token);
  }

  /** `process.env.JWT_SECRET || ''`. */
  function SecretKey(env: Option<string>): (key: string)
    ensures env.Some? && env.value != "" ==> key == env.value
    ensures env.None? || env.value == "" ==> key == ""
  {
    if env.Some? then env.value else ""
  }

  /** How a request ends: answered 401 with a message, or let through with the verified payload. */
  datatype Outcome = Reject(message: string) | Accept(payload: Value)

  /**
   * The decision chain, with `jwt.verify` as `verify(token, key)`: `Ok` with the payload or
   * `Err` for what it throws.
   */
  function Authenticate(header: Option<string>, env: Option<string>, verify: (string, string) -> Result<Value>): (r: Outcome)
    ensures header.None? || header.value == "" ==> r == Reject(MissingHeader)
    ensures r.Accept? ==> exists t :: BearerToken(header.value) == Some(t) && t != "" && verify(t, SecretKey(env)) == Ok(r.payload)
    ensures r.Reject? ==> r.message in {MissingHeader, BadFormat, Refused}
    ensures header.Some? && BearerToken(header.value).Some? && BearerToken(header.value).value != "" ==>
      r == (match verify(BearerToken(header.value).value, SecretKey(env))
            case Ok(payload) => Accept(payload)
            case Err(_) => Reject(Refused))
  {
    if header.None? || header.value == "" then Reject(MissingHeader)
    else
      var token := BearerToken(header.value);
      if token.None? || token.value == "" then Reject(BadFormat)
      else
        match verify(token.value, SecretKey(env))
        case Ok(payload) => Accept(payload)
        case Err(_) => Reject(Refused)
  }

  /** A header with no space, or with nothing between the first two spaces, has an invalid format. */
  lemma NoTokenIsBadFormat(header: string, env: Option<string>, verify: (string, string) -> Result<Value>)
    requires header != ""
    requires BearerToken(header).None? || BearerToken(header) == Some("")
    ensures Authenticate(Some(header), env, verify) == Reject(BadFormat)
  {
  }

  /** `Bearer <token>` is let through exactly when the verifier accepts the token under the configured key. */
  lemma BearerVerified(token: string, env: Option<string>, verify: (string, string) -> Result<Value>)
    requires ' ' !in token && token != ""
    ensures var r := Authenticate(Some("Bearer " + token), env, verify);
      && (r.Accept? <==> verify(token, SecretKey(env)).Ok?)
      && (r.Accept? ==> r.payload == verify(token, SecretKey(env)).value)
      && (r.Reject? ==> r.message == Refused)
  {
    BearerTokenOf(token);
  }

  /**
   * The scheme is never looked at: a token after any scheme word (`Basic`, `Token`, ...) is
   * treated exactly as it would be after `Bearer`.
   */
  lemma SchemeIgnored(scheme: string, token: string, env: Option<string>, verify: (string, string) -> Result<Value>)
    requires ' ' !in scheme && ' ' !in token
    ensures Authenticate(Some(scheme + " " + token), env, verify) == Authenticate(Some("Bearer " + token), env, verify)
  {
    BearerTokenAfterScheme(scheme, token);
    BearerTokenOf(token);
  }

  /** The Express request and response as far as the middleware touches them. */
  class Exchange {
    /** `req.user`. */
    var user: Value
    /** The responses sent: status and the `message` of the JSON body. */
    var responses: seq<(nat, string)>
    /** How many times `next()` was called. */
    var nextCalls: nat

    constructor ()
      ensures user == Undefined && responses == [] && nextCalls == 0
    {
      user := Undefined;
      responses := [];
      nextCalls := 0;
    }

    /** `res.status(status).json({message})`. */
    method Respond(status: nat, message: string)
      modifies this
      ensures responses == old(responses) + [(status, message)]
      ensures user == old(user) && nextCalls == old(nextCalls)
    {
      responses := responses + [(status, message)];
    }

    /** `next()`. */
    method Next()
      modifies this
      ensures nextCalls == old(nextCalls) + 1
      ensures user == old(user) && responses == old(responses)
    {
      nextCalls := nextCalls + 1;
    }
  }

  /**
   * `authMiddleware`: exactly one of "answer 401" and "call next" happens; `req.user` changes
   * only when the request is let through.
   */
  method Middleware(ex: Exchange, header: Option<string>, env: Option<string>, verify: (string, string) -> Result<Value>)
    modifies ex
    ensures var r := Authenticate(header, env, verify);
      && (r.Reject? ==> ex.responses == old(ex.responses) + [(401, r.message)] && ex.nextCalls == old(ex.nextCalls) && ex.user == old(ex.user))
      && (r.Accept? ==> ex.responses == old(ex.responses) && ex.nextCalls == old(ex.nextCalls) + 1 && ex.user == r.payload)
    ensures |ex.responses| - |old(ex.responses)| + ex.nextCalls - old(ex.nextCalls) == 1
  {
    if header.None? || header.value == "" {
      ex.Respond(401, MissingHeader);
      return;
    }
    var token := BearerToken(header.value);
    if token.None? || token.value == "" {
      ex.Respond(401, BadFormat);
      return;
    }
    match verify(token.value, SecretKey(env))
    case Ok(payload) =>
      ex.user := payload;
      ex.Next();
    case Err(_) =>
      ex.Respond(401, Refused);
  }
}
