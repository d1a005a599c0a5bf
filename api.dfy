/**
 * The pure decisions of the API client (lib/api/users.ts, lib/api/infra.ts,
 * lib/api/operations.ts, lib/api/activity.ts): the `getCookie` parser, of
 * which the four modules carry verbatim copies, and the rule that turns
 * the status of a response into the value a fetcher returns.  The request
 * itself is a parameter: what `fetch` produced is handed in as a
 * `Response`.
 */
module Api {
  import opened Types
  import opened Text

  // ---------------------------------------------------------------------------
  // getCookie
  // ---------------------------------------------------------------------------

  /** The marker `getCookie` splits on: `"; " + name + "="`. */
  function Marker(name: string): (m: string)
    ensures |m| == |name| + 3 && m[0] == ';' && m[1] == ' ' && m[|m| - 1] == '='
    ensures m[2..|m| - 1] == name
  {
    "; " + name + "="
  }

  /** No `;` occurs in `s`. */
  predicate NoSemicolon(s: string)
  {
    forall k :: 0 <= k < |s| ==> s[k] != ';'
  }

  /** `sep` occurs in `s` at exactly one position. */
  ghost predicate OccursOnce(s: string, sep: string)
  {
    exists i :: OccursAt(s, sep, i) && forall j :: OccursAt(s, sep, j) ==> j == i
  }

  /**
   * `getCookie(name)`: `None` without a document; otherwise `"; " + cookie`
   * is split on the marker and, when that gives exactly two pieces, the
   * value is the second piece up to its first `;`.  Whatever it returns
   * contains no `;` and follows the marker in the cookie text.
   */
  function GetCookie(document: Option<string>, name: string): (r: Option<string>)
    ensures document.None? ==> r.None?
    ensures r.Some? ==> NoSemicolon(r.value)
    ensures r.Some? ==> exists i :: OccursAt("; " + document.value, Marker(name) + r.value, i)
  {
    match document
    case None => None
    case Some(cookie) =>
      var parts := Split("; " + cookie, Marker(name));
      if |parts| == 2 then
        ValueFollowsMarker("; " + cookie, Marker(name));
        Some(Split(parts[1], ";")[0])
      else None
  }

  /** The first piece of a split on `;` holds no `;`. */
  lemma FirstPieceNoSemicolon(t: string)
    ensures NoSemicolon(Split(t, ";")[0])
  {
    var v := Split(t, ";")[0];
    SplitFirst(t, ";");
    forall k | 0 <= k < |v| ensures v[k] != ';' {
      assert v[k..k + 1] == [v[k]];
      assert !OccursAt(v, ";", k);
    }
  }

  /** With two or more pieces, the text after the first separator starts with the second piece up to its first `;`. */
  lemma ValueFollowsMarker(s: string, sep: string)
    requires |sep| > 0 && |Split(s, sep)| >= 2
    ensures NoSemicolon(Split(Split(s, sep)[1], ";")[0])
    ensures exists i :: OccursAt(s, sep + Split(Split(s, sep)[1], ";")[0], i)
  {
    var i := Find(s, sep).value;
    var rest := s[i + |sep|..];
    var second := Split(rest, sep)[0];
    assert Split(s, sep)[1] == second;
    var v := Split(second, ";")[0];
    FirstPieceNoSemicolon(second);
    SplitFirst(rest, sep);
    SplitFirst(second, ";");
    FollowedBy(s, sep, i, v);
  }

  /** A separator at `i` followed by a prefix `v` of the remaining text is an occurrence of `sep + v`. */
  lemma FollowedBy(s: string, sep: string, i: int, v: string)
    requires OccursAt(s, sep, i) && v <= s[i + |sep|..]
    ensures OccursAt(s, sep + v, i)
  {
    assert s[i + |sep|..i + |sep| + |v|] == v;
    assert s[i..i + |sep| + |v|] == s[i..i + |sep|] + s[i + |sep|..i + |sep| + |v|];
  }

  /** An occurrence in a suffix is an occurrence in the whole string, and back. */
  lemma OccursInSuffix(s: string, sep: string, a: nat, k: int)
    requires a <= |s| && 0 <= k
    ensures OccursAt(s[a..], sep, k) <==> OccursAt(s, sep, a + k)
  {
    if a + k + |sep| <= |s| {
      assert s[a..][k..k + |sep|] == s[a + k..a + k + |sep|];
    }
  }

  /** The value of the cookie text `rest` starts with: up to its first `;`, or all of it. */
  lemma FirstPieceUpToSemicolon(rest: string)
    ensures var v := Split(rest, ";")[0];
      v <= rest && (|v| < |rest| ==> rest[|v|] == ';')
  {
    SplitFirst(rest, ";");
    match Find(rest, ";")
    case None =>
    case Some(i) =>
      assert rest[i..i + 1] == ";";
  }

  /**
   * With the marker occurring exactly once, at `i`, the cookie's value is
   * the text after the marker up to the next `;` or to the end.
   */
  lemma CookieFound(cookie: string, name: string, i: int)
    requires OccursAt("; " + cookie, Marker(name), i)
    requires forall j :: OccursAt("; " + cookie, Marker(name), j) ==> j == i
    ensures var rest := ("; " + cookie)[i + |Marker(name)|..];
      var v := Split(rest, ";")[0];
      && GetCookie(Some(cookie), name) == Some(v)
      && v <= rest
      && (|v| < |rest| ==> rest[|v|] == ';')
  {
    var s := "; " + cookie;
    var m := Marker(name);
    var rest := s[i + |m|..];
    SplitAtFirst(s, m, i);
    NoneAfter(s, m, i, rest);
    SplitWhole(rest, m);
    CookieOfTwoPieces(cookie, name, s[..i], rest);
    FirstPieceUpToSemicolon(rest);
  }

  /** After the only occurrence of `sep` the text holds no other. */
  lemma NoneAfter(s: string, sep: string, i: int, rest: string)
    requires |sep| > 0 && OccursAt(s, sep, i) && forall j :: OccursAt(s, sep, j) ==> j == i
    requires rest == s[i + |sep|..]
    ensures forall k :: !OccursAt(rest, sep, k)
  {
    forall k | 0 <= k ensures !OccursAt(rest, sep, k) {
      OccursInSuffix(s, sep, i + |sep|, k);
    }
  }

  /** A split into two pieces yields the second piece up to its first `;`. */
  lemma CookieOfTwoPieces(cookie: string, name: string, before: string, rest: string)
    requires Split("; " + cookie, Marker(name)) == [before, rest]
    ensures GetCookie(Some(cookie), name) == Some(Split(rest, ";")[0])
  {
  }

  /** Without the marker there is no value. */
  lemma CookieAbsent(cookie: string, name: string)
    requires forall j :: !OccursAt("; " + cookie, Marker(name), j)
    ensures GetCookie(Some(cookie), name) == None
  {
    SplitWhole("; " + cookie, Marker(name));
  }

  /** The marker's only `;` is its first character. */
  lemma MarkerSemicolon(name: string)
    requires NoSemicolon(name)
    ensures forall d :: 1 <= d < |Marker(name)| ==> Marker(name)[d] != ';'
  {
    var m := Marker(name);
    forall d | 2 <= d < |m| - 1 ensures m[d] != ';' {
      assert m[d] == m[2..|m| - 1][d - 2];
    }
  }

  /** Two distinct occurrences of a marker free of `;` after its first character never overlap. */
  lemma MarkersApart(s: string, name: string, i: int, j: int)
    requires NoSemicolon(name)
    requires OccursAt(s, Marker(name), i) && OccursAt(s, Marker(name), j) && i < j
    ensures i + |Marker(name)| <= j
  {
    var m := Marker(name);
    MarkerSemicolon(name);
    var w := s[i..i + |m|];
    assert forall d :: 0 <= d < |m| ==> w[d] == s[i + d];
    assert s[j] == s[j..j + |m|][0];
  }

  /** A cookie name given twice yields no value. */
  lemma CookieRepeated(cookie: string, name: string, i: int, j: int)
    requires NoSemicolon(name)
    requires OccursAt("; " + cookie, Marker(name), i) && OccursAt("; " + cookie, Marker(name), j) && i < j
    ensures GetCookie(Some(cookie), name) == None
  {
    var s := "; " + cookie;
    var m := Marker(name);
    var i0 := FirstOccurrence(s, m, i);
    MarkersApart(s, name, i0, j);
    SplitThree(s, m, i0, j);
  }

  /** A second occurrence after the end of the first one leaves at least three pieces. */
  lemma SplitThree(s: string, sep: string, i: int, j: int)
    requires |sep| > 0 && OccursAt(s, sep, i) && forall k :: 0 <= k < i ==> !OccursAt(s, sep, k)
    requires OccursAt(s, sep, j) && i + |sep| <= j
    ensures |Split(s, sep)| >= 3
  {
    SplitAtFirst(s, sep, i);
    OccursInSuffix(s, sep, i + |sep|, j - (i + |sep|));
    SplitTwo(s[i + |sep|..], sep, j - (i + |sep|));
  }

  /**
   * For a cookie name free of `;`, `getCookie` finds a value exactly when
   * its marker occurs once in `"; " + cookie`.
   */
  lemma CookieFoundIff(cookie: string, name: string)
    requires NoSemicolon(name)
    ensures GetCookie(Some(cookie), name).Some? <==> OccursOnce("; " + cookie, Marker(name))
  {
    var s := "; " + cookie;
    var m := Marker(name);
    if OccursOnce(s, m) {
      var i :| OccursAt(s, m, i) && forall j :: OccursAt(s, m, j) ==> j == i;
      CookieFound(cookie, name, i);
    } else if exists i :: OccursAt(s, m, i) {
      var i :| OccursAt(s, m, i);
      var j :| OccursAt(s, m, j) && j != i;
      if i < j { CookieRepeated(cookie, name, i, j); } else { CookieRepeated(cookie, name, j, i); }
    } else {
      CookieAbsent(cookie, name);
    }
  }

  /**
   * In a cookie text holding a single pair, the `"; "` prefix lets that
   * first pair match: the value is found exactly when the text starts with
   * `name=`, so a pair named `xtoken` is no `token`.
   */
  lemma SinglePairCookie(cookie: string, name: string)
    requires NoSemicolon(cookie)
    ensures GetCookie(Some(cookie), name).Some? <==> name + "=" <= cookie
    ensures name + "=" <= cookie ==> GetCookie(Some(cookie), name) == Some(cookie[|name| + 1..])
  {
    var s := "; " + cookie;
    var m := Marker(name);
    assert forall k :: 2 <= k < |s| ==> s[k] == cookie[k - 2];
    forall j | OccursAt(s, m, j) ensures j == 0 {
      assert s[j] == s[j..j + |m|][0];
    }
    MarkerAtStart(cookie, name);
    if name + "=" <= cookie {
      CookieFound(cookie, name, 0);
      var rest := s[|m|..];
      assert forall k :: 0 <= k < |rest| ==> rest[k] == cookie[|name| + 1 + k];
      assert rest == cookie[|name| + 1..];
      assert NoSemicolon(rest);
      var v := GetCookie(Some(cookie), name).value;
      assert v == rest;
    } else {
      CookieAbsent(cookie, name);
    }
  }

  /** The marker starts `"; " + cookie` exactly when `cookie` starts with `name=`. */
  lemma MarkerAtStart(cookie: string, name: string)
    ensures OccursAt("; " + cookie, Marker(name), 0) <==> name + "=" <= cookie
  {
    var s := "; " + cookie;
    var m := Marker(name);
    if |name| + 1 <= |cookie| {
      assert s[..|m|] == "; " + cookie[..|name| + 1];
      assert m == "; " + (name + "=");
      assert ("; " + cookie[..|name| + 1])[2..] == cookie[..|name| + 1];
      assert ("; " + (name + "="))[2..] == name + "=";
    }
  }

  /** `"xtoken=abc"` holds no `token` cookie, while `"token=abc"` holds `"abc"`. */
  lemma SuffixNameExample()
    ensures GetCookie(Some("xtoken=abc"), "token") == None
    ensures GetCookie(Some("token=abc"), "token") == Some("abc")
  {
    SinglePairCookie("xtoken=abc", "token");
    assert "xtoken=abc"[0] != ("token" + "=")[0];
    SinglePairCookie("token=abc", "token");
    assert "token=abc"[..6] == "token" + "=";
    assert "token=abc"[6..] == "abc";
  }

  // ---------------------------------------------------------------------------
  // Status rules
  // ---------------------------------------------------------------------------

  /**
   * What `fetch` produced: a response with its status and its body (`None`
   * when the body is not the JSON expected), or a thrown network error.
   */
  datatype Response<T> = Response(status: int, body: Option<T>) | NetworkError

  /** `response.ok`. */
  predicate IsOk(status: int) { 200 <= status <= 299 }

  const Unauthorized401: int := 401

  /**
   * How the returned promise settles: with a value, or rejected.  The
   * fetchers `return response.json()` without awaiting it, so a body that
   * does not parse rejects the promise past their `catch`.
   */
  datatype Settled<T> = Returned(value: T) | Rejected

  /** A fetcher's result and its side effects on the token cookie and the page. */
  datatype Call<T> = Call(result: Settled<T>, clearsToken: bool, redirects: bool)

  /** The result of `getUserSelf`: the user, or `{ unauthorized: true }`. */
  datatype SelfResult = Authorized(user: User) | NotAuthorized

  /**
   * `getUserSelf`: 401 clears the token (when there is a document) and
   * yields the unauthorized marker; any other failure yields the marker
   * too; an OK response yields the user it carries.
   */
  function UserSelf(hasDocument: bool, response: Response<User>): (r: Call<SelfResult>)
    ensures !r.redirects
    ensures r.clearsToken <==> hasDocument && response.Response? && response.status == Unauthorized401
    ensures r.result == Rejected <==> response.Response? && IsOk(response.status) && response.body.None?
    ensures r.result.Returned? && r.result.value.Authorized? <==>
      response.Response? && IsOk(response.status) && response.body.Some?
    ensures r.result.Returned? && r.result.value.Authorized? ==> r.result.value.user == response.body.value
  {
    match response
    case NetworkError => Call(Returned(NotAuthorized), false, false)
    case Response(status, body) =>
      if status == Unauthorized401 then Call(Returned(NotAuthorized), hasDocument, false)
      else if !IsOk(status) then Call(Returned(NotAuthorized), false, false)
      else match body
        case Some(u) => Call(Returned(Authorized(u)), false, false)
        case None => Call(Rejected, false, false)
  }

  /**
   * `getStudents`, `getAllUsers` and `getOperations`: 401 calls
   * `handleUnauthorized` (which, with a document, clears the token and
   * redirects) and yields `[]`; any other failure yields `[]`; an OK
   * response yields the list it carries.
   */
  function FetchList<T>(hasDocument: bool, response: Response<seq<T>>): (r: Call<seq<T>>)
    ensures r.clearsToken == r.redirects
    ensures r.redirects <==> hasDocument && response.Response? && response.status == Unauthorized401
    ensures r.result == Rejected <==> response.Response? && IsOk(response.status) && response.body.None?
    ensures r.result.Returned? && r.result.value != [] ==>
      response.Response? && IsOk(response.status) && response.body == Some(r.result.value)
    ensures response.Response? && IsOk(response.status) && response.body.Some? ==>
      r.result == Returned(response.body.value)
  {
    match response
    case NetworkError => Call(Returned([]), false, false)
    case Response(status, body) =>
      if status == Unauthorized401 then Call(Returned([]), hasDocument, hasDocument)
      else if !IsOk(status) then Call(Returned([]), false, false)
      else match body
        case Some(list) => Call(Returned(list), false, false)
        case None => Call(Rejected, false, false)
  }

  /**
   * Every failure of the request — 401, any other non-OK status, a thrown
   * error — yields the same result: the unauthorized marker for
   * `getUserSelf`, `[]` for the list fetchers.  Only 401 touches the token.
   */
  lemma FailuresLookAlike<T>(hasDocument: bool, status: int, other: int)
    requires !IsOk(other) && other != Unauthorized401 && !IsOk(status)
    ensures UserSelf(hasDocument, Response(status, None)).result
      == UserSelf(hasDocument, NetworkError).result
      == UserSelf(hasDocument, Response(other, None)).result == Returned(NotAuthorized)
    ensures FetchList<T>(hasDocument, Response(status, None)).result
      == FetchList<T>(hasDocument, NetworkError).result
      == FetchList<T>(hasDocument, Response(other, None)).result == Returned([])
    ensures !UserSelf(hasDocument, Response(other, None)).clearsToken
    ensures !FetchList<T>(hasDocument, Response(other, None)).clearsToken
  {
    assert !IsOk(Unauthorized401);
  }
}
