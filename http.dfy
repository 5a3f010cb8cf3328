/** What the Express route handlers of the dashboard see of a request and produce as an answer. */
module Http {
  import opened Wrappers

  /** `res.redirect(location)` or `res.status(status).send(body)` (`res.send` alone is status 200). */
  datatype Response = Redirect(location: string) | Send(status: int, body: string)

  /** The fields the dashboard handlers keep in the session; `None` is an unset (`undefined`) field. */
  datatype SessionView = SessionView(userId: Option<string>, username: Option<string>, displayName: Option<string>)

  /** An `express-session` session object. `destroy` throws the stored data away. */
  class Session {
    var userId: Option<string>
    var username: Option<string>
    var displayName: Option<string>
    var accessToken: Option<string>
    var refreshToken: Option<string>
    var destroyed: bool

    /** A new, empty session. */
    constructor ()
      ensures userId == None && username == None && displayName == None
      ensures accessToken == None && refreshToken == None && !destroyed
    {
      userId, username, displayName := None, None, None;
      accessToken, refreshToken, destroyed := None, None, false;
    }

    /** What a later request reads from this session. */
    function View(): SessionView
      reads this
    {
      SessionView(userId, username, displayName)
    }
  }
}
