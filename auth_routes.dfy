/** The OAuth routes of src/dashboard/routes/auth.js: `/twitch/callback`, which trades the
    authorisation code for tokens, stores the user and fills the session, and `/logout`. The Twitch
    provider and the user collection are the collaborators of `TwitchApi` and `UserService`. */
module AuthRoutes {
  import opened Wrappers
  import opened Text
  import opened TwitchApi
  import opened UserService
  import opened Http

  const NoCodeMessage: string := "Autorisierung fehlgeschlagen. Kein Code erhalten."
  const SessionFailed: string := "Session-Fehler"
  const LogoutFailed: string := "Fehler beim Logout."
  /** The `TypeError` of `scope.split(' ')` when the query has no `scope`. */
  const SplitOfUndefined: string := "Cannot read properties of undefined (reading 'split')"

  const ErrorPageHead: string := "\n            <h1>Authentifizierung fehlgeschlagen</h1>\n            <p>"
  const ErrorPageTail: string := "</p>\n            <a href=\"/\">Zurück zur Startseite</a>\n        "

  /** The page the callback's `catch` sends with status 500. */
  function ErrorPage(message: string): string {
    ErrorPageHead + message + ErrorPageTail
  }

  /** The error page shows the message of the error that ended the callback. */
  lemma ErrorPageShowsMessage(message: string)
    ensures Contains(ErrorPage(message), message)
  {
    ContainsMiddle(ErrorPageHead, message, ErrorPageTail);
  }

  /** The scopes to store: the token response's array when it sent one, otherwise the query's
      `scope` split on spaces; empty strings are dropped either way. */
  function ScopesToStore(tokenScope: Option<seq<string>>, queryScope: Option<string>): (r: Result<seq<string>>)
    ensures tokenScope.Some? ==> r.Ok? && forall x :: x in r.value <==> x in tokenScope.value && x != ""
    ensures tokenScope.None? ==> (r.Err? <==> queryScope.None?)
    ensures r.Err? ==> r.message == SplitOfUndefined
    ensures tokenScope.None? && r.Ok? ==> forall x :: x in r.value <==> x in Split(queryScope.value, ' ') && x != ""
    ensures tokenScope.None? && r.Ok? ==> forall k :: 0 <= k < |r.value| ==> ' ' !in r.value[k]
    ensures r.Ok? ==> forall k :: 0 <= k < |r.value| ==> r.value[k] != ""
  {
    match tokenScope
    case Some(scopes) => Ok(FilterNonEmpty(scopes))
    case None =>
      match queryScope
      case None => Err(SplitOfUndefined)
      case Some(q) =>
        var s := FilterNonEmpty(Split(q, ' '));
        assert forall k :: 0 <= k < |s| ==> s[k] in Split(q, ' ');
        Ok(s)
  }

  /** A query `scope` written as the space-separated, non-empty scope names is read back as those
      names. */
  lemma ScopesRoundTrip(scopes: seq<string>)
    requires forall k :: 0 <= k < |scopes| ==> scopes[k] != "" && ' ' !in scopes[k]
    ensures ScopesToStore(None, Some(Join(scopes, ' '))) == Ok(scopes)
  {
    if |scopes| == 0 {
      assert Split("", ' ') == [""];
      assert FilterNonEmpty([""]) == [];
    } else {
      SplitJoin(scopes, ' ');
      FilterKeepsNonEmpty(scopes);
    }
  }

  /** The token's scope array is stored in its own order, only its empty entries dropped: a list
      without empty entries is stored as it is, and the parts of a list are filtered independently. */
  lemma ScopesKeepOrder(scopes: seq<string>, more: seq<string>, queryScope: Option<string>)
    ensures (forall k :: 0 <= k < |scopes| ==> scopes[k] != "") ==> ScopesToStore(Some(scopes), queryScope) == Ok(scopes)
    ensures ScopesToStore(Some(scopes + more), queryScope).value
      == ScopesToStore(Some(scopes), queryScope).value + ScopesToStore(Some(more), queryScope).value
  {
    FilterNonEmptyAppend(scopes, more);
    if forall k :: 0 <= k < |scopes| ==> scopes[k] != "" {
      FilterKeepsNonEmpty(scopes);
    }
  }

  /** What the callback has gathered before it stores the user. */
  datatype Login = Login(record: UserData, tokens: TokenResponse)

  /** The token exchange, the scope normalisation and the user lookup of the callback, in that order;
      the first failure ends it. An absent `refresh_token` is passed on as the empty string. */
  function LoginData(tw: Twitch, code: string, queryScope: Option<string>): (r: Result<Login>)
    ensures tw.exchange(code).None? ==> r == Err(ExchangeFailed)
    ensures tw.exchange(code).Some? && ScopesToStore(tw.exchange(code).value.scope, queryScope).Err? ==> r == Err(SplitOfUndefined)
    ensures r.Ok? <==> (tw.exchange(code).Some? && ScopesToStore(tw.exchange(code).value.scope, queryScope).Ok?
      && tw.users(tw.exchange(code).value.accessToken).Some?)
    ensures r.Err? && tw.exchange(code).Some? && ScopesToStore(tw.exchange(code).value.scope, queryScope).Ok?
      ==> r == Err(UserInfoFailed)
    ensures r.Ok? ==> var t := tw.exchange(code).value; var info := tw.users(t.accessToken).value;
      && r.value.tokens == t
      && r.value.record.twitchId == info.id && r.value.record.username == info.login
      && r.value.record.accessToken == t.accessToken
      && r.value.record.refreshToken == t.refreshToken.GetOr("")
      && r.value.record.scope == ScopesToStore(t.scope, queryScope).value
  {
    match ExchangeCodeForToken(tw, code)
    case Err(m) => Err(m)
    case Ok(t) =>
      match ScopesToStore(t.scope, queryScope)
      case Err(m) => Err(m)
      case Ok(scopes) =>
        match GetUserInfo(tw, t.accessToken)
        case Err(m) => Err(m)
        case Ok(info) => Ok(Login(UserData(info.id, info.login, t.accessToken, t.refreshToken.GetOr(""), scopes), t))
  }

  /** A login whose token response has no `refresh_token` is refused by the store: the record's
      refresh token is empty, so the upsert fails its `required` check. */
  lemma MissingRefreshTokenRejected(tw: Twitch, code: string, queryScope: Option<string>,
                                    users: map<string, User>, outage: Option<string>, now: int)
    requires Keyed(users)
    requires LoginData(tw, code, queryScope).Ok? && tw.exchange(code).value.refreshToken.None?
    ensures SaveResult(users, outage, LoginData(tw, code, queryScope).value.record, now).Err?
  {
    var d := LoginData(tw, code, queryScope).value.record;
    assert d.refreshToken == "";
    assert MissingPath(d.username, d.accessToken, d.refreshToken).Some?;
  }

  /** `GET /twitch/callback?code&scope`. `sessionSaves` is whether `req.session.save` succeeds. */
  method TwitchCallback(code: Option<string>, queryScope: Option<string>, tw: Twitch, store: UserStore,
                        session: Session, now: int, sessionSaves: bool) returns (res: Response)
    requires store.Valid()
    modifies store, session
    ensures store.Valid() && store.outage == old(store.outage)
    ensures !Truthy(code) ==> (res == Send(400, NoCodeMessage) && unchanged(store) && unchanged(session))
    ensures Truthy(code) && LoginData(tw, code.value, queryScope).Err? ==>
      (res == Send(500, ErrorPage(LoginData(tw, code.value, queryScope).message))
       && unchanged(store) && unchanged(session))
    ensures Truthy(code) && LoginData(tw, code.value, queryScope).Ok? ==>
      var login := LoginData(tw, code.value, queryScope).value;
      var saved := SaveResult(old(store.users), old(store.outage), login.record, now);
      && (saved.Err? ==>
            res == Send(500, ErrorPage(saved.message)) && store.users == old(store.users)
            && store.order == old(store.order) && unchanged(session))
      && (saved.Ok? ==>
            && store.users == old(store.users)[login.record.twitchId := saved.value]
            && store.order == (if login.record.twitchId in old(store.users) then old(store.order)
                               else old(store.order) + [login.record.twitchId])
            && session.userId == Some(saved.value.twitchId)
            && session.username == Some(saved.value.username)
            && session.displayName == None
            && session.accessToken == Some(login.tokens.accessToken)
            && session.refreshToken == login.tokens.refreshToken
            && session.destroyed == old(session.destroyed)
            && res == if sessionSaves then Redirect("/dashboard") else Send(500, SessionFailed))
  {
    if !Truthy(code) {
      return Send(400, NoCodeMessage);
    }
    var gathered := LoginData(tw, code.value, queryScope);
    if gathered.Err? {
      return Send(500, ErrorPage(gathered.message));
    }
    var login := gathered.value;
    var saved := store.SaveOrUpdateUser(login.record, now);
    if saved.Err? {
      return Send(500, ErrorPage(saved.message));
    }
    var stored := saved.value;
    session.userId := Some(stored.twitchId);
    session.username := Some(stored.username);
    // The schema has no `displayName` path, so the stored document never carries one.
    session.displayName := None;
    session.accessToken := Some(login.tokens.accessToken);
    session.refreshToken := login.tokens.refreshToken;
    if sessionSaves {
      res := Redirect("/dashboard");
    } else {
      res := Send(500, SessionFailed);
    }
  }

  /** `GET /logout`. `destroyOk` is whether `req.session.destroy` succeeds. */
  method Logout(session: Session, destroyOk: bool) returns (res: Response)
    modifies session
    ensures destroyOk ==> (res == Redirect("/") && session.destroyed
      && session.View() == SessionView(None, None, None)
      && session.accessToken == None && session.refreshToken == None)
    ensures !destroyOk ==> res == Send(500, LogoutFailed) && unchanged(session)
  {
    if !destroyOk {
      return Send(500, LogoutFailed);
    }
    session.userId, session.username, session.displayName := None, None, None;
    session.accessToken, session.refreshToken := None, None;
    session.destroyed := true;
    res := Redirect("/");
  }
}
