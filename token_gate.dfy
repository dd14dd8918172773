/** `verifyToken`: the middleware that reads the bearer token from the
    Authorization header, asks the token verifier for its payload and
    attaches it to the request. */
module TokenGate {
  import opened Common

  /** The part of an incoming request the middleware chain reads and writes. */
  class Request {
    var authorization: Option<string>
    var user: Option<Claims>

    constructor (authorization: Option<string>)
      ensures this.authorization == authorization && user == None
    {
      this.authorization := authorization;
      user := None;
    }
  }

  /** Either `next()` is called or a 401 reply with a `message` is sent. */
  datatype Outcome = Next | Unauthorized(message: string)

  /** `req.headers.authorization?.split(' ')[1]`, with the falsy results
      (no header, no second field, an empty second field) as `None`. */
  function BearerToken(header: Option<string>): (token: Option<string>)
    ensures token.Some? ==> token.value != "" && ' ' !in token.value
    ensures token.Some? <==> header.Some? && |Split(header.value, ' ')| >= 2 && Split(header.value, ' ')[1] != ""
  {
    if header.None? then None
    else
      var fields := Split(header.value, ' ');
      SplitFieldsHaveNoSeparator(header.value, ' ');
      if |fields| >= 2 && fields[1] != "" then Some(fields[1]) else None
  }

  /** No field produced by `Split` contains the separator. */
  lemma {:induction false} SplitFieldsHaveNoSeparator(s: string, sep: char)
    ensures forall i | 0 <= i < |Split(s, sep)| :: sep !in Split(s, sep)[i]
    decreases |s|
  {
    if s != [] {
      SplitFieldsHaveNoSeparator(s[1..], sep);
    }
  }

  /** The header the client builds, `Bearer ${token}`, yields the token back;
      any first word is accepted in place of `Bearer`. */
  lemma BearerTokenRoundTrip(scheme: string, token: string)
    requires ' ' !in scheme && ' ' !in token && token != ""
    ensures BearerToken(Some(scheme + " " + token)) == Some(token)
  {
    SplitAtSeparator(scheme, ' ', token);
    SplitWithoutSeparator(token, ' ');
    assert scheme + " " + token == scheme + [' '] + token;
  }

  /** `verifyToken(req, res, next)` with `verify` standing for `jwt.verify`
      under the server's secret (`None` when it throws). */
  method VerifyToken(req: Request, verify: string -> Option<Claims>) returns (o: Outcome)
    modifies req
    ensures req.authorization == old(req.authorization)
    ensures BearerToken(req.authorization).None? ==>
      o == Unauthorized("No token provided") && req.user == old(req.user)
    ensures BearerToken(req.authorization).Some? && verify(BearerToken(req.authorization).value).None? ==>
      o == Unauthorized("Invalid token") && req.user == old(req.user)
    ensures o.Next? <==> BearerToken(req.authorization).Some? && verify(BearerToken(req.authorization).value).Some?
    ensures o.Next? ==> req.user == verify(BearerToken(req.authorization).value)
  {
    var token := BearerToken(req.authorization);
    if token.None? {
      return Unauthorized("No token provided");
    }
    var decoded := verify(token.value);
    if decoded.None? {
      return Unauthorized("Invalid token");
    }
    req.user := decoded;
    return Next;
  }
}
