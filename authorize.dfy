/** The resource-owner authorization step of OAuth 1.0 (section 2.2 of
    RFC 5849) as the okapi/apps/authorize view performs it: look the request
    token up, make sure a user is logged in, skip the consent form for a
    consumer the user has already authorized, otherwise ask and record the
    answer, and finally bind the token to the user and send the browser back
    to the consumer. */
module Authorize {
  import opened Wrappers
  import opened Php
  import opened Url

  type UserId = int

  /** The columns of an okapi_tokens row the view reads or writes. The
      verifier was stored when the request token was issued. */
  datatype Token = Token(
    consumerKey: string,
    userId: Option<UserId>,
    verifier: Option<string>,
    callback: Option<string>)

  /** The installation's SITELANG setting and its absolute_server_URI. */
  datatype Site = Site(siteLang: string, serverUri: string)

  /** One request: the oauth_token and langpref query parameters, the user
      logged in to the session, and the posted authorization_result. */
  datatype Request = Request(
    oauthToken: Option<string>,
    langpref: Option<string>,
    sessionUser: Option<UserId>,
    authorizationResult: Option<string>)

  datatype PageKind = TokenExpiredPage | AuthorizationFormPage

  datatype Response = Page(kind: PageKind) | Redirect(url: string)

  /** The branch the view takes for a request. */
  datatype Outcome = Expired | LoginFirst | AskConsent | Denied | Bound

  /** The oauth_token parameter, "" when it is absent. */
  function TokenKey(req: Request): string {
    req.oauthToken.GetOr("")
  }

  /** The langpref parameter, the site language when it is absent. */
  function LangPref(req: Request, site: Site): string {
    req.langpref.GetOr(site.siteLang)
  }

  /** A NULL column concatenates as "". */
  function Text(v: Option<string>): string {
    v.GetOr("")
  }

  /** `if ($token['callback'])`: a NULL, "" or "0" callback means out-of-band. */
  predicate HasCallback(t: Token) {
    Truthy(Text(t.callback))
  }

  /** The branch taken, from whether the token was found, the session user,
      whether that user already authorized the token's consumer, and the
      posted decision. Only the exact value "granted" or a standing
      authorization leads to binding the token; every other posted value
      denies. */
  function Decide(found: bool, user: Option<UserId>, standing: bool, result: Option<string>): (o: Outcome)
    ensures o == Expired <==> !found
    ensures o == LoginFirst <==> found && user.None?
    ensures o == AskConsent <==> found && user.Some? && !standing && result.None?
    ensures o == Denied <==> found && user.Some? && !standing && result.Some? && result.value != "granted"
    ensures o == Bound <==> found && user.Some? && (standing || result == Some("granted"))
  {
    if !found then Expired
    else if user.None? then LoginFirst
    else if standing then Bound
    else if result.None? then AskConsent
    else if result.value == "granted" then Bound
    else Denied
  }

  /** Where the login page sends the user back to: this view with the same
      token, and with the language preference when it is not the site's
      (PHP's loose `!=`). */
  function AfterLogin(site: Site, key: string, lp: string): string {
    "okapi/apps/authorize?oauth_token=" + key + (if !LooseEquals(lp, site.siteLang) then "&langpref=" + lp else "")
  }

  lemma ByteStringAppend(a: string, b: string)
    requires IsByteString(a) && IsByteString(b)
    ensures IsByteString(a + b)
  {
    forall i | 0 <= i < |a + b|
      ensures (a + b)[i] as int < 256
    {
      if i >= |a| { assert (a + b)[i] == b[i - |a|]; }
    }
  }

  lemma AuthorizePathBytes()
    ensures IsByteString("okapi/apps/authorize?oauth_token=")
  {
  }

  /** The return address is a byte string when the key and the language are. */
  lemma AfterLoginBytes(site: Site, key: string, lp: string)
    requires IsByteString(key) && IsByteString(lp)
    ensures IsByteString(AfterLogin(site, key, lp))
  {
    var tail := if !LooseEquals(lp, site.siteLang) then "&langpref=" + lp else "";
    AuthorizePathBytes();
    ByteStringAppend("okapi/apps/authorize?oauth_token=", key);
    ByteStringAppend("&langpref=", lp);
    ByteStringAppend("okapi/apps/authorize?oauth_token=" + key, tail);
  }

  /** The login redirect. Its target parameter is the urlencoded return
      address: it holds no "&", so it is one parameter, and it decodes back
      to the address of this view with the same token. */
  function LoginUrl(site: Site, key: string, lp: string): (url: string)
    requires IsByteString(key) && IsByteString(lp)
    ensures exists target ::
              && url == site.serverUri + "login.php?target=" + target + "&langpref=" + lp
              && '&' !in target
              && UrlDecode(target) == AfterLogin(site, key, lp)
  {
    var back := AfterLogin(site, key, lp);
    AfterLoginBytes(site, key, lp);
    DecodeEncode(back);
    var target := UrlEncode(back);
    assert '&' !in target by {
      forall i | 0 <= i < |target| ensures target[i] != '&' {
        assert Unreserved(target[i]) || target[i] == '+' || target[i] == '%';
      }
    }
    site.serverUri + "login.php?target=" + target + "&langpref=" + lp
  }

  /** The redirect after the token is bound. With a callback, the callback's
      own query is kept and the token key and the stored verifier are
      appended; without one, the owner goes to the okapi/apps/authorized page
      with the same values. */
  function GrantUrl(t: Token, site: Site, key: string, lp: string): (url: string)
    ensures HasCallback(t) ==>
              var cb := Text(t.callback);
              var params := "oauth_token=" + key + "&oauth_verifier=" + Text(t.verifier);
              && |url| == |cb| + 1 + |params| && url[..|cb|] == cb
              && url[|cb|] == (if '?' in cb then '&' else '?') && url[|cb| + 1..] == params
              && QueryOf(url) == if '?' in cb then QueryOf(cb) + "&" + params else params
    ensures !HasCallback(t) ==>
              url == site.serverUri + "okapi/apps/authorized?oauth_token=" + key
                     + "&oauth_verifier=" + Text(t.verifier) + "&langpref=" + lp
  {
    if HasCallback(t) then
      var params := "oauth_token=" + key + "&oauth_verifier=" + Text(t.verifier);
      AppendParamsQuery(Text(t.callback), params);
      AppendParams(Text(t.callback), params)
    else
      site.serverUri + "okapi/apps/authorized?oauth_token=" + key
      + "&oauth_verifier=" + Text(t.verifier) + "&langpref=" + lp
  }

  /** The redirect after a denial: back to the callback with
      error=access_denied added to its query, or to the site's main page when
      there is no callback. */
  function DenyUrl(t: Token, site: Site): (url: string)
    ensures HasCallback(t) ==>
              var cb := Text(t.callback);
              && |url| == |cb| + 1 + |"error=access_denied"| && url[..|cb|] == cb
              && url[|cb|] == (if '?' in cb then '&' else '?') && url[|cb| + 1..] == "error=access_denied"
              && QueryOf(url) == if '?' in cb then QueryOf(cb) + "&" + "error=access_denied" else "error=access_denied"
    ensures !HasCallback(t) ==> url == site.serverUri + "index.php"
  {
    if HasCallback(t) then
      AppendParamsQuery(Text(t.callback), "error=access_denied");
      AppendParams(Text(t.callback), "error=access_denied")
    else
      site.serverUri + "index.php"
  }

  /** The response for each branch. */
  function Respond(o: Outcome, found: Option<Token>, site: Site, key: string, lp: string): Response
    requires o == Denied || o == Bound ==> found.Some?
    requires o == LoginFirst ==> IsByteString(key) && IsByteString(lp)
  {
    match o
    case Expired => Page(TokenExpiredPage)
    case LoginFirst => Redirect(LoginUrl(site, key, lp))
    case AskConsent => Page(AuthorizationFormPage)
    case Denied => Redirect(DenyUrl(found.value, site))
    case Bound => Redirect(GrantUrl(found.value, site, key, lp))
  }

  /** The two tables the view works on. */
  class AuthorizeView {
    /** okapi_tokens, by key. */
    var tokens: map<string, Token>
    /** okapi_authorizations, whose primary key is (consumer_key, user_id). */
    var authorizations: set<(string, UserId)>
    /** The keys of okapi_consumers; the view only joins with it. */
    const consumers: set<string>

    constructor (consumers: set<string>, tokens: map<string, Token>, authorizations: set<(string, UserId)>)
      ensures this.consumers == consumers
      ensures this.tokens == tokens && this.authorizations == authorizations
    {
      this.consumers := consumers;
      this.tokens := tokens;
      this.authorizations := authorizations;
    }

    /** The row the lookup query returns: the token with that key, provided
        its consumer exists and its user_id is still NULL. */
    function Lookup(key: string): (t: Option<Token>)
      reads this
      ensures t.Some? <==> key in tokens && tokens[key].userId.None? && tokens[key].consumerKey in consumers
      ensures t.Some? ==> t.value == tokens[key]
    {
      if key in tokens && tokens[key].userId.None? && tokens[key].consumerKey in consumers
      then Some(tokens[key])
      else None
    }

    /** Whether the user has already authorized the token's consumer. */
    predicate Standing(found: Option<Token>, user: Option<UserId>)
      reads this
    {
      found.Some? && user.Some? && (found.value.consumerKey, user.value) in authorizations
    }

    /** One request to the view. */
    method Handle(req: Request, site: Site) returns (resp: Response)
      requires IsByteString(TokenKey(req)) && IsByteString(LangPref(req, site))
      modifies this
      ensures var key := TokenKey(req);
              var found := old(Lookup(key));
              var standing := old(Standing(found, req.sessionUser));
              var o := Decide(found.Some?, req.sessionUser, standing, req.authorizationResult);
              && resp == Respond(o, found, site, key, LangPref(req, site))
              && (o != Bound ==> tokens == old(tokens))
              && (o == Bound ==> tokens == old(tokens)[key := found.value.(userId := req.sessionUser)])
              && authorizations == if o == Bound && !standing
                                   then old(authorizations) + {(found.value.consumerKey, req.sessionUser.value)}
                                   else old(authorizations)
      // no redirect, let alone one to a consumer's callback, for an unknown or used token
      ensures old(Lookup(TokenKey(req))).None? ==> resp == Page(TokenExpiredPage)
      ensures resp.Redirect? && req.sessionUser.Some? ==> old(Lookup(TokenKey(req))).Some?
      // the verifier is never changed, and a bound token can not be found again
      ensures tokens.Keys == old(tokens.Keys)
      ensures forall k :: k in tokens ==> tokens[k].verifier == old(tokens[k].verifier)
      ensures tokens != old(tokens) ==> Lookup(TokenKey(req)).None? && tokens[TokenKey(req)].userId == req.sessionUser
    {
      var key := TokenKey(req);
      var lp := LangPref(req, site);
      var token := Lookup(key);
      if token.None? {
        return Page(TokenExpiredPage);
      }
      if req.sessionUser.None? {
        return Redirect(LoginUrl(site, key, lp));
      }
      var user := req.sessionUser.value;
      var t := token.value;
      var authorized := (t.consumerKey, user) in authorizations;
      if !authorized {
        if req.authorizationResult.Some? {
          if req.authorizationResult.value == "granted" {
            authorizations := authorizations + {(t.consumerKey, user)};
          } else {
            return Redirect(DenyUrl(t, site));
          }
        } else {
          return Page(AuthorizationFormPage);
        }
      }
      tokens := tokens[key := tokens[key].(userId := Some(user))];
      resp := Redirect(GrantUrl(t, site, key, lp));
    }
  }

  /** A user grants one request token; the next request token of the same
      consumer for the same user is then bound without a consent form, and
      the first token, once bound, can not be used again. */
  method ReauthorizationScenario(
    consumers: set<string>, tokens: map<string, Token>, authorizations: set<(string, UserId)>,
    site: Site, k1: string, k2: string, user: UserId)
    returns (first: Response, second: Response, replay: Response)
    requires k1 != k2 && k1 in tokens && k2 in tokens
    requires tokens[k1].userId.None? && tokens[k2].userId.None?
    requires tokens[k1].consumerKey == tokens[k2].consumerKey && tokens[k1].consumerKey in consumers
    requires IsByteString(k1) && IsByteString(k2) && IsByteString(site.siteLang)
    ensures first == Redirect(GrantUrl(tokens[k1], site, k1, site.siteLang))
    ensures second == Redirect(GrantUrl(tokens[k2], site, k2, site.siteLang))
    ensures replay == Page(TokenExpiredPage)
  {
    var view := new AuthorizeView(consumers, tokens, authorizations);
    first := view.Handle(Request(Some(k1), None, Some(user), Some("granted")), site);
    second := view.Handle(Request(Some(k2), None, Some(user), None), site);
    replay := view.Handle(Request(Some(k1), None, Some(user), Some("granted")), site);
  }
}
