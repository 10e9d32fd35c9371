/**
 * The CSRF guard: safe methods mint a per-session token, every other method
 * must echo that token back in the body or a header.
 */
module Csrf {
  import opened Js
  import opened Sessions
  import Hex

  /** The generator draws this many random bytes. */
  const TokenBytes: nat := 32

  /** Methods that pass without verification. */
  const SafeMethods: seq<string> := ["GET", "HEAD", "OPTIONS"]

  /**
   * A fresh token: the random bytes (supplied by the caller in place of
   * `crypto.randomBytes`) as lower-case hex text.
   */
  function GenerateToken(entropy: seq<Hex.Byte>): (t: string)
    requires |entropy| == TokenBytes
    ensures |t| == 2 * TokenBytes
    ensures Hex.IsHexText(t)
    ensures Hex.Decode(t) == entropy
  {
    Hex.DecodeEncode(entropy);
    Hex.Encode(entropy)
  }

  /** The parts of a request the guard reads. */
  datatype Request = Request(
    verb: string,           // req.method
    bodyToken: Value,       // req.body._csrf
    xCsrfHeader: Value,     // req.headers['x-csrf-token']
    csrfHeader: Value)      // req.headers['csrf-token']

  /** The first truthy of the body field and the two headers (the last one if none is). */
  function SubmittedToken(req: Request): (v: Value)
    ensures Truthy(req.bodyToken) ==> v == req.bodyToken
    ensures !Truthy(req.bodyToken) && Truthy(req.xCsrfHeader) ==> v == req.xCsrfHeader
    ensures !Truthy(req.bodyToken) && !Truthy(req.xCsrfHeader) ==> v == req.csrfHeader
    ensures Truthy(v) <==> Truthy(req.bodyToken) || Truthy(req.xCsrfHeader) || Truthy(req.csrfHeader)
  {
    Or(Or(req.bodyToken, req.xCsrfHeader), req.csrfHeader)
  }

  /** The JavaScript `.length` of a value: defined for strings only. */
  function Length(v: Value): Option<int>
  {
    if v.Str? then Some(|v.s|) else None
  }

  datatype Denial = TokenMissing | NoSessionToken | LengthMismatch | TokenMismatch

  datatype Verdict = Next | Reject(denial: Denial)

  datatype Step = Step(verdict: Verdict, session: Session)

  /** The `error` and `message` fields of the 403 body for each denial. */
  function Response(d: Denial): (string, string)
  {
    match d
    case TokenMissing => ("CSRF token missing", "CSRF token is required for this request")
    case NoSessionToken => ("CSRF token validation failed", "No CSRF token found in session")
    case LengthMismatch => ("CSRF token validation failed", "Invalid CSRF token")
    case TokenMismatch => ("CSRF token validation failed", "Invalid CSRF token")
  }

  /** The session with a token, minting one only when it has none. */
  function WithToken(session: Session, entropy: seq<Hex.Byte>): (s: Session)
    requires |entropy| == TokenBytes
    ensures HasCsrfToken(s)
    ensures HasCsrfToken(session) ==> s == session
    ensures !HasCsrfToken(session) ==> s == session.(csrfToken := Some(GenerateToken(entropy)))
  {
    if HasCsrfToken(session) then session
    else session.(csrfToken := Some(GenerateToken(entropy)))
  }

  /** `csrfProtection`: the verdict for one request and the session afterwards. */
  function Protect(req: Request, session: Session, entropy: seq<Hex.Byte>): (r: Step)
    requires |entropy| == TokenBytes
    // safe methods always pass and leave a token in the session, keeping an existing one
    ensures req.verb in SafeMethods ==> r.verdict == Next && HasCsrfToken(r.session)
    ensures req.verb in SafeMethods && HasCsrfToken(session) ==> r.session == session
    ensures req.verb in SafeMethods && !HasCsrfToken(session) ==>
              r.session == session.(csrfToken := Some(GenerateToken(entropy)))
    // every other method is verified and never touches the session
    ensures req.verb !in SafeMethods ==> r.session == session
    ensures req.verb !in SafeMethods ==>
              (r.verdict == Next <==>
                 HasCsrfToken(session) && SubmittedToken(req) == Str(session.csrfToken.value))
    // the order of the checks
    ensures req.verb !in SafeMethods && !Truthy(SubmittedToken(req)) ==>
              r.verdict == Reject(TokenMissing)
    ensures req.verb !in SafeMethods && Truthy(SubmittedToken(req)) && !HasCsrfToken(session) ==>
              r.verdict == Reject(NoSessionToken)
    ensures req.verb !in SafeMethods && Truthy(SubmittedToken(req)) && HasCsrfToken(session)
              && Length(SubmittedToken(req)) != Some(|session.csrfToken.value|) ==>
              r.verdict == Reject(LengthMismatch)
    ensures req.verb !in SafeMethods && Truthy(SubmittedToken(req)) && HasCsrfToken(session)
              && Length(SubmittedToken(req)) == Some(|session.csrfToken.value|)
              && SubmittedToken(req) != Str(session.csrfToken.value) ==>
              r.verdict == Reject(TokenMismatch)
  {
    if req.verb in SafeMethods then
      Step(Next, WithToken(session, entropy))
    else
      var token := SubmittedToken(req);
      if !Truthy(token) then Step(Reject(TokenMissing), session)
      else if !HasCsrfToken(session) then Step(Reject(NoSessionToken), session)
      else if Length(token) != Some(|session.csrfToken.value|) then Step(Reject(LengthMismatch), session)
      else if token.s != session.csrfToken.value then Step(Reject(TokenMismatch), session)
      else Step(Next, session)
  }

  /** What `provideCsrfToken` (into `res.locals`) and `getCsrfToken` (as JSON) hand out. */
  datatype Issued = Issued(session: Session, token: string)

  /** `provideCsrfToken` / `getCsrfToken`: the session's token, minted first if missing. */
  function IssueToken(session: Session, entropy: seq<Hex.Byte>): (r: Issued)
    requires |entropy| == TokenBytes
    ensures HasCsrfToken(r.session) && r.session.csrfToken == Some(r.token)
    ensures HasCsrfToken(session) ==> r == Issued(session, session.csrfToken.value)
    ensures !HasCsrfToken(session) ==> r.token == GenerateToken(entropy)
    ensures r.session.userId == session.userId && r.session.userRole == session.userRole
            && r.session.username == session.username
  {
    var s := WithToken(session, entropy);
    Issued(s, s.csrfToken.value)
  }

  /** Asking for the token twice gives the same token and session as asking once. */
  lemma IssueTokenIdempotent(session: Session, e1: seq<Hex.Byte>, e2: seq<Hex.Byte>)
    requires |e1| == TokenBytes && |e2| == TokenBytes
    ensures IssueToken(IssueToken(session, e1).session, e2) == IssueToken(session, e1)
  {
  }

  /** A safe request never changes a token the session already has. */
  lemma SafeRequestKeepsToken(req: Request, session: Session, entropy: seq<Hex.Byte>)
    requires |entropy| == TokenBytes
    requires req.verb in SafeMethods && HasCsrfToken(session)
    ensures Protect(req, session, entropy).session.csrfToken == session.csrfToken
  {
  }

  /**
   * The handshake: after the token is handed out, an unsafe request that
   * sends it back in the `x-csrf-token` header (and no body token) passes.
   */
  lemma HandshakePasses(session: Session, entropy: seq<Hex.Byte>, verb: string, e2: seq<Hex.Byte>)
    requires |entropy| == TokenBytes && |e2| == TokenBytes
    requires verb !in SafeMethods
    ensures var issued := IssueToken(session, entropy);
            Protect(Request(verb, Undefined, Str(issued.token), Undefined), issued.session, e2)
              == Step(Next, issued.session)
  {
  }

  /** A token that differs from the session's in any way is refused and changes nothing. */
  lemma WrongTokenRefused(req: Request, session: Session, entropy: seq<Hex.Byte>)
    requires |entropy| == TokenBytes
    requires req.verb !in SafeMethods && HasCsrfToken(session)
    requires SubmittedToken(req) != Str(session.csrfToken.value)
    ensures Protect(req, session, entropy).verdict.Reject?
    ensures Protect(req, session, entropy).session == session
  {
  }

  /** A wrong length and wrong content produce the same response body. */
  lemma MismatchesLookAlike()
    ensures Response(LengthMismatch) == Response(TokenMismatch)
    ensures Response(NoSessionToken).0 == Response(TokenMismatch).0
  {
  }
}
