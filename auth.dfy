/**
 * The authentication context (components/auth-provider.tsx): on mount it
 * reads the token cookie, asks for the current user and records the
 * answer; `logout` forgets the user.  The cookie text and the response to
 * the request are parameters; the cookie writes and the redirect are
 * reported as results.
 */
module Auth {
  import opened Types
  import opened Text
  import opened Api

  const TokenCookie: string := "token"

  /**
   * The provider's own `getCookie`: the same split as the API modules'
   * copies but without the document guard, answering `undefined` (`None`)
   * where they answer `null`.  In a browser, where a document always
   * exists, it agrees with them on every cookie text.
   */
  function AuthCookie(cookie: string, name: string): (r: Option<string>)
    ensures r == GetCookie(Some(cookie), name)
  {
    var parts := Split("; " + cookie, Marker(name));
    if |parts| == 2 then Some(Split(parts[1], ";")[0]) else None
  }

  /**
   * A cookie `token=` holds an empty token, which `checkAuth` treats like
   * a missing one; a cookie text without the pair has no token at all.
   */
  lemma EmptyTokenCookie()
    ensures AuthCookie("token=", TokenCookie) == Some("")
    ensures AuthCookie("theme=dark", TokenCookie) == None
  {
    SinglePairCookie("token=", TokenCookie);
    assert TokenCookie + "=" <= "token=";
    SinglePairCookie("theme=dark", TokenCookie);
    assert "theme=dark"[1] != (TokenCookie + "=")[1];
  }

  /** The token `checkAuth` sends: the cookie's value when it is present and non-empty. */
  function TokenToSend(cookie: string): (r: Option<string>)
    ensures r.Some? <==> GetCookie(Some(cookie), TokenCookie).Some? && GetCookie(Some(cookie), TokenCookie).value != ""
    ensures r.Some? ==> r == GetCookie(Some(cookie), TokenCookie)
  {
    var token := AuthCookie(cookie, TokenCookie);
    if token.None? || token.value == "" then None else token
  }

  /** `response.ok` with a body that parses: the one answer that signs the user in. */
  predicate SignsIn(response: Response<User>)
  {
    response.Response? && IsOk(response.status) && response.body.Some?
  }

  /** The `user` and `loading` state of the provider. */
  class AuthProvider {
    var user: Option<User>
    var loading: bool

    /** No user yet, and loading until `checkAuth` finishes. */
    constructor()
      ensures user.None? && loading
    {
      user := None;
      loading := true;
    }

    /**
     * `checkAuth`.  Without a token (or with an empty one) it only stops
     * loading.  Otherwise it sends the token to `getUserSelf` and: an OK
     * response sets the user; the unauthorized marker redirects to the
     * login page, the 401 case after clearing the token; a response whose
     * body does not parse lands in `catch`, which clears the token and
     * redirects.  `finally` stops loading on every path.
     */
    method CheckAuth(cookie: string, response: Response<User>)
      returns (request: Option<string>, redirect: bool, clearsToken: bool)
      modifies this
      ensures !loading
      ensures request == TokenToSend(cookie)
      ensures request.Some? && SignsIn(response) ==> user == response.body && !redirect && !clearsToken
      ensures !(request.Some? && SignsIn(response)) ==> user == old(user)
      ensures redirect <==> request.Some? && !SignsIn(response)
      ensures clearsToken <==> (request.Some? && response.Response? &&
        (response.status == Unauthorized401 || (IsOk(response.status) && response.body.None?)))
    {
      request := TokenToSend(cookie);
      redirect, clearsToken := false, false;
      if request.None? {
        loading := false;
        return;
      }
      var call := UserSelf(true, response);
      match call.result {
        case Returned(NotAuthorized) =>
          clearsToken := call.clearsToken;
          redirect := true;
        case Returned(Authorized(u)) =>
          user := Some(u);
        case Rejected =>
          clearsToken := true;
          redirect := true;
      }
      loading := false;
    }

    /** `logout`: clears the token, forgets the user and goes to the login page. */
    method Logout() returns (clearsToken: bool, redirect: bool)
      modifies this`user
      ensures user.None? && clearsToken && redirect
    {
      user := None;
      clearsToken, redirect := true, true;
    }
  }
}
