/** The bearer-token check of pkg/core/middleware/authMiddleware.go. Token
    validation (JWT parsing and signature checking) is not modelled: it is a
    function from the token text to claims or an error message, supplied by
    the caller. */
module Auth {
  import opened Wrappers
  import opened GoStrings
  import opened Http

  const StatusUnauthorized: int := 401

  /** What the handler does with a request: reject it with a status and an
      error message, or call the next handler once, with the claims in the
      request context. */
  datatype AuthOutcome<C> = Denied(status: int, message: string) | Granted(claims: C)

  /** The Authorization header split on single spaces is exactly "Bearer" and one more part. */
  predicate WellFormed(authHeader: string)
    ensures WellFormed(authHeader) ==> |authHeader| >= 7 && authHeader[..7] == "Bearer "
  {
    var parts := Split(authHeader, ' ');
    JoinSplit(authHeader, ' ');
    assert |parts| == 2 ==> parts[1..] == [parts[1]];
    |parts| == 2 && parts[0] == "Bearer"
  }

  /** The token a well-formed header carries: all of it after "Bearer ". */
  function Token(authHeader: string): (t: string)
    requires WellFormed(authHeader)
    ensures authHeader == "Bearer " + t && ' ' !in t
  {
    var parts := Split(authHeader, ' ');
    JoinSplit(authHeader, ' ');
    assert parts[1..] == [parts[1]];
    parts[1]
  }

  /** AuthMiddleware's handler: the checks in order, the first failing one decides. */
  function Authorize<C>(header: Header, validate: string -> Result<C, string>): (o: AuthOutcome<C>)
    ensures HeaderGet(header, "Authorization") == "" ==>
      o == Denied(StatusUnauthorized, "Unauthorized: missing token")
    ensures HeaderGet(header, "Authorization") != "" && !WellFormed(HeaderGet(header, "Authorization")) ==>
      o == Denied(StatusUnauthorized, "Invalid Authorization Header Format")
    ensures o.Granted? <==>
      (WellFormed(HeaderGet(header, "Authorization")) && validate(Token(HeaderGet(header, "Authorization"))).Success?)
    ensures o.Granted? ==> o.claims == validate(Token(HeaderGet(header, "Authorization"))).value
    ensures WellFormed(HeaderGet(header, "Authorization")) && validate(Token(HeaderGet(header, "Authorization"))).Failure? ==>
      o == Denied(StatusUnauthorized, "Invalid Token: " + validate(Token(HeaderGet(header, "Authorization"))).error)
  {
    var authHeader := HeaderGet(header, "Authorization");
    if authHeader == "" then Denied(StatusUnauthorized, "Unauthorized: missing token")
    else
      var parts := Split(authHeader, ' ');
      if |parts| != 2 || parts[0] != "Bearer" then Denied(StatusUnauthorized, "Invalid Authorization Header Format")
      else
        var tokenString := parts[1];
        match validate(tokenString)
        case Failure(err) => Denied(StatusUnauthorized, "Invalid Token: " + err)
        case Success(claims) => Granted(claims)
  }

  /** A header is well formed exactly when it is "Bearer ", then a token
      without spaces (possibly empty); that token is what gets validated.
      Lower-case "bearer", a tab or a doubled space are all rejected. */
  lemma WellFormedExactly(authHeader: string)
    ensures WellFormed(authHeader) <==> exists t :: authHeader == "Bearer " + t && ' ' !in t
    ensures WellFormed(authHeader) ==> authHeader == "Bearer " + Token(authHeader) && ' ' !in Token(authHeader)
  {
    if WellFormed(authHeader) {
      var parts := Split(authHeader, ' ');
      JoinSplit(authHeader, ' ');
      assert parts[1..] == [parts[1]];
      assert authHeader == "Bearer" + " " + parts[1];
      assert "Bearer" + " " + parts[1] == "Bearer " + parts[1];
    }
    if exists t :: authHeader == "Bearer " + t && ' ' !in t {
      var t :| authHeader == "Bearer " + t && ' ' !in t;
      BearerToken(t);
    }
  }

  /** "Bearer " followed by a space-free token splits into the two parts. */
  lemma BearerToken(t: string)
    requires ' ' !in t
    ensures Split("Bearer " + t, ' ') == ["Bearer", t]
  {
    assert "Bearer " + t == "Bearer" + [' '] + t;
    SplitAtFirst("Bearer", t, ' ');
    SplitWithoutSeparator(t, ' ');
  }

  /** For a header "Bearer <t>", the outcome is decided by validating t alone. */
  lemma BearerIsValidated<C>(header: Header, t: string, validate: string -> Result<C, string>)
    requires "Authorization" in header && header["Authorization"] == "Bearer " + t && ' ' !in t
    ensures Authorize(header, validate) ==
      match validate(t)
      case Success(claims) => Granted(claims)
      case Failure(err) => Denied(StatusUnauthorized, "Invalid Token: " + err)
  {
    BearerToken(t);
  }
}
