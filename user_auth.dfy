/** The authentication middleware (src/middlewares/userAuth.js): read a bearer
    token from the Authorization header, verify it, and resolve the user. */
module UserAuth {
  import opened Common
  import opened Strings
  import opened UserModel

  /** Why a request is refused; every kind yields the same 401 response. */
  datatype AuthError = NoToken | BadTokenFormat | VerifyFailed | NoSuchUser

  const Prefix: string := "Bearer "

  /** A header beginning with the prefix holds a space, so splitting it at
      spaces yields at least two fields. */
  lemma {:induction false} PrefixedSplitsInTwo(h: string)
    requires StartsWith(h, Prefix)
    ensures ' ' in h
    ensures IndexOf(h, ' ') == 6 && |Split(h, ' ')| >= 2
    ensures Split(h, ' ')[1] == Split(h[7..], ' ')[0]
  {
    assert h[6] == ' ';
    assert h[..6] == "Bearer";
    assert ' ' !in h[..6];
  }

  /** The header check and `authHeader.split(' ')[1]`. */
  function BearerToken(header: Option<string>): (r: Result<string, AuthError>)
    ensures r.Failure? && r.error == NoToken <==> header.None? || !StartsWith(header.value, Prefix)
    ensures r.Success? ==> r.value != "" && ' ' !in r.value
  {
    if header.None? || !StartsWith(header.value, Prefix) then Failure(NoToken)
    else
      PrefixedSplitsInTwo(header.value);
      var token := Split(header.value, ' ')[1];
      if token == "" then Failure(BadTokenFormat) else Success(token)
  }

  /** The token is the text after the prefix up to the next space. */
  lemma TokenIsSecondField(h: string)
    requires StartsWith(h, Prefix)
    ensures var rest := h[7..];
      var field := if ' ' in rest then rest[..IndexOf(rest, ' ')] else rest;
      BearerToken(Some(h)) == if field == "" then Failure(BadTokenFormat) else Success(field)
  {
    PrefixedSplitsInTwo(h);
    SplitHead(h[7..], ' ');
  }

  /** A non-empty token without spaces comes back out of its header unchanged. */
  lemma BearerTokenRoundTrip(t: string)
    requires t != "" && ' ' !in t
    ensures BearerToken(Some(Prefix + t)) == Success(t)
  {
    var h := Prefix + t;
    assert StartsWith(h, Prefix);
    assert h[7..] == t;
    TokenIsSecondField(h);
  }

  /** `"Bearer "` alone, or a second space right after it, leaves an empty token. */
  lemma EmptyTokenRejected(rest: string)
    ensures BearerToken(Some(Prefix)) == Failure(BadTokenFormat)
    ensures BearerToken(Some(Prefix + " " + rest)) == Failure(BadTokenFormat)
  {
    BarePrefixRejected();
    SecondSpaceRejected(Prefix + " " + rest);
  }

  lemma BarePrefixRejected()
    ensures BearerToken(Some(Prefix)) == Failure(BadTokenFormat)
  {
    assert StartsWith(Prefix, Prefix) && Prefix[7..] == "";
    TokenIsSecondField(Prefix);
  }

  lemma SecondSpaceRejected(h: string)
    requires |h| >= 8 && h[..8] == Prefix + " "
    ensures BearerToken(Some(h)) == Failure(BadTokenFormat)
  {
    assert h[..7] == h[..8][..7] == Prefix;
    assert StartsWith(h, Prefix) && h[7] == ' ';
    assert IndexOf(h[7..], ' ') == 0;
    TokenIsSecondField(h);
  }

  /** The accept/reject decision: a token, a verified payload (`verify` yields None
      when `jwt.verify` throws, and Some(None) when the payload has no `_id`), and
      a user with that id. */
  function Authenticate(header: Option<string>, verify: string -> Option<Option<UserId>>,
                        users: seq<User>): (r: Result<User, AuthError>)
    ensures r.Success? <==>
      && BearerToken(header).Success?
      && verify(BearerToken(header).value).Some?
      && verify(BearerToken(header).value).value.Some?
      && FindUser(users, verify(BearerToken(header).value).value.value).Some?
    ensures r.Success? ==> r.value in users && Some(Some(r.value.id)) == verify(BearerToken(header).value)
    ensures r.Failure? && BearerToken(header).Failure? ==> r.error == BearerToken(header).error
  {
    match BearerToken(header)
    case Failure(e) => Failure(e)
    case Success(token) =>
      match verify(token)
      case None => Failure(VerifyFailed)
      case Some(None) => Failure(NoSuchUser)
      case Some(Some(id)) =>
        match FindUser(users, id)
        case None => Failure(NoSuchUser)
        case Some(u) => Success(u)
  }

  /** The JSON body of a refused request. */
  datatype ErrorBody = ErrorBody(success: bool, message: string)

  /** The parts of the request and response the middleware touches. */
  class Exchange {
    var user: Option<User>        // req.user
    var nextCalls: nat            // how many times next() was called
    var status: Option<int>       // res.status
    var body: Option<ErrorBody>   // res.json

    constructor ()
      ensures user.None? && nextCalls == 0 && status.None? && body.None?
    {
      user, nextCalls, status, body := None, 0, None, None;
    }

    /** `userAuth`: on success set `req.user` and call `next` once; on any failure
        answer 401 "Unauthorized" and do not call `next`. */
    method UserAuth(header: Option<string>, verify: string -> Option<Option<UserId>>, users: seq<User>)
      modifies this
      ensures Authenticate(header, verify, users).Success? ==>
        && user == Some(Authenticate(header, verify, users).value)
        && nextCalls == old(nextCalls) + 1
        && status == old(status) && body == old(body)
      ensures Authenticate(header, verify, users).Failure? ==>
        && status == Some(401) && body == Some(ErrorBody(false, "Unauthorized"))
        && nextCalls == old(nextCalls) && user == old(user)
    {
      var r := Authenticate(header, verify, users);
      if r.Success? {
        user := Some(r.value);
        nextCalls := nextCalls + 1;
      } else {
        status := Some(401);
        body := Some(ErrorBody(false, "Unauthorized"));
      }
    }
  }
}
