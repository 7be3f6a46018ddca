/**
 * The bearer-token gate (backend/src/middleware/authMiddleware.js). The
 * JWT library's `verify` is a parameter: a function from the token text to
 * the decoded claims, `None` where the library throws (bad signature,
 * expired, malformed).
 */
module AuthMiddleware {
  import opened Wrappers
  import opened JsText
  import opened Http

  /** The decoded token payload; the routes read its `id`. */
  datatype Claims = Claims(id: string)

  const BearerPrefix: string := "Bearer "
  const NoTokenMessage: string := "Access denied. No token provided."
  const InvalidTokenMessage: string := "Invalid or expired token."

  /** The text given to the verifier: the header with its FIRST occurrence of
      "Bearer " removed, wherever it stands; a header without that substring is
      passed on unchanged. */
  function TokenText(header: string): (t: string)
    ensures (forall j :: !OccursAt(header, BearerPrefix, j)) ==> t == header
    ensures forall i :: OccursAt(header, BearerPrefix, i) && (forall j :: 0 <= j < i ==> !OccursAt(header, BearerPrefix, j)) ==>
              t == header[..i] + header[i + |BearerPrefix|..]
  {
    ReplaceFirst(header, BearerPrefix, "")
  }

  /** The well-formed case: "Bearer " followed by the token yields the token. */
  lemma BearerHeaderYieldsToken(token: string)
    ensures TokenText(BearerPrefix + token) == token
  {
    var h := BearerPrefix + token;
    assert OccursAt(h, BearerPrefix, 0) by {
      assert h[0..|BearerPrefix|] == BearerPrefix;
    }
    assert h[|BearerPrefix|..] == token;
  }

  datatype Outcome = Reject(response: Response) | Pass(user: Claims)

  /** How the middleware ends a request: a 401 response, or hand-over to the
      next handler with the decoded claims. */
  function Decide(header: Option<string>, verify: string -> Option<Claims>): (o: Outcome)
    ensures o.Reject? ==> o.response.status == 401
    ensures !Truthy(header) ==> o == Reject(Response(401, NoTokenMessage))
    ensures Truthy(header) && verify(TokenText(header.value)).None? ==>
              o == Reject(Response(401, InvalidTokenMessage))
    ensures o.Pass? <==> Truthy(header) && verify(TokenText(header.value)).Some?
    ensures o.Pass? ==> verify(TokenText(header.value)) == Some(o.user)
  {
    if !Truthy(header) then Reject(Response(401, NoTokenMessage))
    else match verify(TokenText(header.value))
      case None => Reject(Response(401, InvalidTokenMessage))
      case Some(claims) => Pass(claims)
  }

  /** A request and its response as the middleware sees them: the header it
      reads, `req.user` it sets, the response it may write, and how often it
      has called `next`. */
  class Exchange {
    const header: Option<string>
    var user: Option<Claims>
    var response: Option<Response>
    var nextCalls: nat

    constructor (header: Option<string>)
      ensures this.header == header && user == None && response == None && nextCalls == 0
    {
      this.header := header;
      user := None;
      response := None;
      nextCalls := 0;
    }
  }

  /** `authMiddleware(req, res, next)`: exactly one of "a 401 is written" and
      "`req.user` is set and `next` is called once" happens. */
  method Authenticate(x: Exchange, verify: string -> Option<Claims>)
    modifies x
    ensures Decide(x.header, verify).Reject? ==>
              && x.response == Some(Decide(x.header, verify).response)
              && x.nextCalls == old(x.nextCalls)
              && x.user == old(x.user)
    ensures Decide(x.header, verify).Pass? ==>
              && x.user == Some(Decide(x.header, verify).user)
              && x.nextCalls == old(x.nextCalls) + 1
              && x.response == old(x.response)
  {
    if !Truthy(x.header) {
      x.response := Some(Response(401, NoTokenMessage));
      return;
    }
    var decoded := verify(TokenText(x.header.value));
    if decoded.None? {
      x.response := Some(Response(401, InvalidTokenMessage));
      return;
    }
    x.user := decoded;
    x.nextCalls := x.nextCalls + 1;
  }

  /** On a fresh exchange the middleware either responds 401 without calling
      `next`, or calls `next` exactly once without responding. */
  method AuthenticateFresh(header: Option<string>, verify: string -> Option<Claims>) returns (x: Exchange)
    ensures (x.response.Some? && x.response.value.status == 401 && x.nextCalls == 0)
         != (x.response.None? && x.nextCalls == 1)
    ensures x.nextCalls == 1 <==> Truthy(header) && verify(TokenText(header.value)).Some?
  {
    x := new Exchange(header);
    Authenticate(x, verify);
  }
}
