/** The request guards of server/src/middlewares/authMiddleware.ts: bearer-token
    extraction and verification, and the admin-role gate. Token verification is an
    uninterpreted function passed in by the caller. */
module Auth {
  import opened Wrappers

  /** Position of the first space in `s`. */
  function FirstSpace(s: string): (r: Option<nat>)
    ensures r.Some? ==> r.value < |s| && s[r.value] == ' ' && ' ' !in s[..r.value]
    ensures r.None? <==> ' ' !in s
  {
    if |s| == 0 then None
    else if s[0] == ' ' then Some(0)
    else match FirstSpace(s[1..])
      case None => None
      case Some(i) =>
        assert s[..i + 1] == [s[0]] + s[1..][..i];
        Some(i + 1)
  }

  /** `s.split(' ')[1]`: the text between the first and the second space, or up to the
      end when there is no second space; `undefined` when there is no space at all. */
  function SecondField(s: string): (r: Option<string>)
    ensures r.None? <==> ' ' !in s
    ensures r.Some? ==> ' ' !in r.value
  {
    match FirstSpace(s)
    case None => None
    case Some(i) =>
      var rest := s[i + 1..];
      match FirstSpace(rest)
      case None => Some(rest)
      case Some(j) => Some(rest[..j])
  }

  /** The field a header is built from is the field read back out of it. */
  lemma SecondFieldOfJoin(scheme: string, token: string, tail: string)
    requires ' ' !in scheme && ' ' !in token
    requires tail == [] || tail[0] == ' '
    ensures SecondField(scheme + " " + token + tail) == Some(token)
  {
    var s := scheme + " " + token + tail;
    assert s == scheme + " " + (token + tail);
    FirstSpaceAfter(scheme, token + tail);
    var rest := s[|scheme| + 1..];
    assert rest == token + tail;
    if tail == [] {
      assert rest == token;
      assert FirstSpace(rest).None?;
    } else {
      assert rest == token + " " + tail[1..];
      FirstSpaceAfter(token, tail[1..]);
    }
  }

  /** A space after a space-free prefix is the first space. */
  lemma FirstSpaceAfter(a: string, b: string)
    requires ' ' !in a
    ensures FirstSpace(a + " " + b) == Some(|a|)
  {
    var s := a + " " + b;
    assert s[..|a|] == a;
    FirstSpaceAt(s, |a|);
  }

  lemma FirstSpaceAt(s: string, i: nat)
    requires i < |s| && s[i] == ' ' && ' ' !in s[..i]
    ensures FirstSpace(s) == Some(i)
  {
    assert s[i] in s;
  }

  /** The verifier's verdict on a token: rejected, or accepted with the `userId` claim of
      the decoded payload (`None` when the payload has none). */
  datatype Verdict = Rejected | Accepted(userId: Option<int>)

  /** A guard either answers the request itself or passes it on, exactly once, to the
      next handler with the caller's user id. */
  datatype Decision = Deny(status: int, error: string) | Next(userId: Option<int>)

  const NoToken: string := "No token provided"
  const InvalidToken: string := "Invalid token"

  /** The token of an `Authorization` header; an absent or empty header has none. */
  function Token(header: Option<string>): Option<string> {
    if header.None? || header.value == "" then None else SecondField(header.value)
  }

  /** `authMiddleware`: no header or an empty token field is 401, a token the verifier
      rejects is 403, and an accepted token passes on with the payload's user id. */
  function Authenticate(header: Option<string>, verify: string -> Verdict): (d: Decision)
    ensures header.None? ==> d == Deny(401, NoToken)
    ensures d.Deny? ==> d == Deny(401, NoToken) || d == Deny(403, InvalidToken)
    ensures d == Deny(401, NoToken) <==> Token(header).None? || Token(header) == Some("")
    ensures d == Deny(403, InvalidToken) <==>
              Token(header).Some? && Token(header).value != "" && verify(Token(header).value).Rejected?
    ensures d.Next? ==>
              Token(header).Some? && Token(header).value != "" && verify(Token(header).value) == Accepted(d.userId)
  {
    var token := Token(header);
    if token.None? || token.value == "" then Deny(401, NoToken)
    else match verify(token.value)
      case Rejected => Deny(403, InvalidToken)
      case Accepted(uid) => Next(uid)
  }

  /** A `Bearer <token>` header whose token the verifier accepts reaches the handler with
      the decoded user id. */
  lemma BearerAccepted(token: string, uid: Option<int>, verify: string -> Verdict)
    requires token != "" && ' ' !in token
    requires verify(token) == Accepted(uid)
    ensures Authenticate(Some("Bearer " + token), verify) == Next(uid)
  {
    var header := "Bearer " + token;
    assert header == "Bearer" + " " + token + "";
    SecondFieldOfJoin("Bearer", token, "");
    assert Token(Some(header)) == Some(token);
  }

  /** A header without a space, such as a bare token, never carries a token. */
  lemma BareTokenRefused(header: string, verify: string -> Verdict)
    requires ' ' !in header
    ensures Authenticate(Some(header), verify) == Deny(401, NoToken)
  {
  }

  datatype User = User(role: string)

  const Unauthorized: string := "Unauthorized"
  const AdminsOnly: string := "Forbidden: Admins only"

  /** `isAdminMiddleware`: a falsy user id (absent or 0) is 401; an unknown user or a
      role other than `admin` is 403. */
  function AdminGate(userId: Option<int>, users: map<int, User>): (d: Decision)
    ensures d.Next? <==> userId.Some? && userId.value != 0 && userId.value in users && users[userId.value].role == "admin"
    ensures d == Deny(401, Unauthorized) <==> userId.None? || userId.value == 0
    ensures d.Next? ==> d.userId == userId
    ensures d.Deny? ==> d == Deny(401, Unauthorized) || d == Deny(403, AdminsOnly)
  {
    if userId.None? || userId.value == 0 then Deny(401, Unauthorized)
    else if userId.value !in users || users[userId.value].role != "admin" then Deny(403, AdminsOnly)
    else Next(userId)
  }

  /** An admin route runs both guards in turn. */
  function AdminRoute(header: Option<string>, verify: string -> Verdict, users: map<int, User>): Decision {
    match Authenticate(header, verify)
    case Deny(status, error) => Deny(status, error)
    case Next(uid) => AdminGate(uid, users)
  }

  /** Only a verified token whose user is an administrator gets through an admin route. */
  lemma AdminRouteNeedsAdmin(header: Option<string>, verify: string -> Verdict, users: map<int, User>)
    ensures AdminRoute(header, verify, users).Next? <==>
              && Token(header).Some? && Token(header).value != ""
              && verify(Token(header).value).Accepted?
              && var uid := verify(Token(header).value).userId;
                 uid.Some? && uid.value != 0 && uid.value in users && users[uid.value].role == "admin"
  {
  }
}
