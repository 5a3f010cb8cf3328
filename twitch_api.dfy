/** The Twitch identity provider as the rest of the system sees it (src/services/TwitchAuthService.js).
    The HTTP requests themselves are not modelled: a `Twitch` value says what the provider answers to
    each request, `None` standing for a request that failed. A failed request surfaces as a thrown
    `Error` whose message is fixed per endpoint. */
module TwitchApi {
  import opened Wrappers

  /** The fields of `GET /oauth2/validate` the callers read. */
  datatype Validation = Validation(expiresIn: int)

  /** The body of `POST /oauth2/token`; `refresh_token` may be missing, and `scope` is `Some`
      exactly when the provider sent an array. */
  datatype TokenResponse = TokenResponse(accessToken: string, refreshToken: Option<string>, scope: Option<seq<string>>)

  /** The fields of `GET /helix/users` that the login callback reads. */
  datatype UserInfo = UserInfo(id: string, login: string, displayName: string)

  /** The provider's answers, keyed by the token or code sent. */
  datatype Twitch = Twitch(
    validate: string -> Option<Validation>,
    refresh: string -> Option<TokenResponse>,
    exchange: string -> Option<TokenResponse>,
    users: string -> Option<UserInfo>)

  const ValidationFailed: string := "Token ist ungültig oder abgelaufen."
  const RefreshFailed: string := "Token-Erneuerung fehlgeschlagen."
  const ExchangeFailed: string := "Token-Austausch fehlgeschlagen."
  const UserInfoFailed: string := "Abrufen der Benutzerinformationen fehlgeschlagen."

  /** `validateToken(accessToken)`. */
  function ValidateToken(tw: Twitch, accessToken: string): (r: Result<Validation>)
    ensures r.Err? <==> tw.validate(accessToken).None?
    ensures r.Err? ==> r.message == ValidationFailed
  {
    match tw.validate(accessToken)
    case Some(v) => Ok(v)
    case None => Err(ValidationFailed)
  }

  /** `refreshAccessToken(refreshToken)`. */
  function RefreshAccessToken(tw: Twitch, refreshToken: string): (r: Result<TokenResponse>)
    ensures r.Err? <==> tw.refresh(refreshToken).None?
    ensures r.Err? ==> r.message == RefreshFailed
  {
    match tw.refresh(refreshToken)
    case Some(t) => Ok(t)
    case None => Err(RefreshFailed)
  }

  /** `exchangeCodeForToken(code)`. */
  function ExchangeCodeForToken(tw: Twitch, code: string): (r: Result<TokenResponse>)
    ensures r.Err? <==> tw.exchange(code).None?
    ensures r.Err? ==> r.message == ExchangeFailed
  {
    match tw.exchange(code)
    case Some(t) => Ok(t)
    case None => Err(ExchangeFailed)
  }

  /** `getUserInfo(accessToken)`; an empty `data` array also ends in the catch, so it is `None` here. */
  function GetUserInfo(tw: Twitch, accessToken: string): (r: Result<UserInfo>)
    ensures r.Err? <==> tw.users(accessToken).None?
    ensures r.Err? ==> r.message == UserInfoFailed
  {
    match tw.users(accessToken)
    case Some(u) => Ok(u)
    case None => Err(UserInfoFailed)
  }
}
