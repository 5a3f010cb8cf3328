/** The dashboard route of src/dashboard/routes/dashboard.js: the `requireAuth` guard, the data
    handed to the page and its injection before the first `</head>`. Reading `dashboard.html` is a
    parameter (its text or the read error), and `JSON.stringify` is an opaque `serialise`. */
module DashboardRoutes {
  import opened Wrappers
  import opened Text
  import opened Http

  /** What a middleware does: call `next()`, or answer itself. */
  datatype Gate = Next | Deny(response: Response)

  const ReadFailed: string := "Ein interner Fehler ist aufgetreten."
  const HeadClose: string := "</head>"

  /** `requireAuth`: only a session with a `userId` gets through. */
  function RequireAuth(session: Option<SessionView>): (g: Gate)
    ensures g.Next? <==> session.Some? && Truthy(session.value.userId)
    ensures g.Deny? ==> g.response == Redirect("/")
  {
    if session.None? || !Truthy(session.value.userId) then Deny(Redirect("/")) else Next
  }

  /** The object the page receives as `window.dashboardData`. */
  datatype DashboardData = DashboardData(username: string, userId: Option<string>, displayName: string)

  /** `dashboardData`: the session's name, falling back to `Unbekannt`; the display name, falling
      back to the user name and then to `Benutzer`. */
  function Data(s: SessionView): (d: DashboardData)
    ensures d.userId == s.userId
    ensures Truthy(s.username) ==> d.username == s.username.value
    ensures !Truthy(s.username) ==> d.username == "Unbekannt"
    ensures Truthy(s.displayName) ==> d.displayName == s.displayName.value
    ensures !Truthy(s.displayName) && Truthy(s.username) ==> d.displayName == s.username.value
    ensures !Truthy(s.displayName) && !Truthy(s.username) ==> d.displayName == "Benutzer"
    ensures d.username != "" && d.displayName != ""
  {
    DashboardData(OrElse(s.username, "Unbekannt"), s.userId, OrElse(s.displayName, OrElse(s.username, "Benutzer")))
  }

  function Script(json: string): string {
    "<script>window.dashboardData = " + json + ";</script>"
  }

  /** `html.replace('</head>', script + '</head>')`. */
  function Inject(html: string, json: string): (r: string)
    ensures IndexOf(html, HeadClose).None? ==> r == html
  {
    ReplaceFirst(html, HeadClose, Script(json) + HeadClose)
  }

  /** The script goes right before the first `</head>`; the text before it and everything from it
      on, later `</head>`s included, are kept. */
  lemma InjectFirstOnly(html: string, json: string)
    requires '$' !in json
    requires IndexOf(html, HeadClose).Some?
    ensures var i := IndexOf(html, HeadClose).value;
      Inject(html, json) == html[..i] + Script(json) + html[i..]
      && (forall j: nat :: j < i ==> !OccursAt(html, HeadClose, j))
  {
    var i := IndexOf(html, HeadClose).value;
    assert '$' !in Script(json) + HeadClose;
    ReplaceFirstLiteral(html, HeadClose, Script(json) + HeadClose);
    assert html[i..] == HeadClose + html[i + |HeadClose|..];
  }

  /** A `$&` in the serialised data is a replacement pattern of `replace`: the matched `</head>`
      lands inside the script in its place. */
  lemma DollarPatternExpands(html: string, pre: string, post: string)
    requires '$' !in pre && '$' !in post
    requires IndexOf(html, HeadClose).Some?
    ensures var i := IndexOf(html, HeadClose).value;
      Inject(html, pre + "$&" + post) == html[..i] + Script(pre + HeadClose + post) + html[i..]
  {
    var i := IndexOf(html, HeadClose).value;
    var before, after := html[..i], html[i + |HeadClose|..];
    var rep := Script(pre + "$&" + post) + HeadClose;
    ExpandMatched(pre, post, HeadClose, before, after);
    assert html[i..] == HeadClose + after;
    assert Inject(html, pre + "$&" + post) == before + Expand(rep, HeadClose, before, after) + after;
  }

  /** `$&` in the script's data is expanded to the matched text. */
  lemma ExpandMatched(pre: string, post: string, matched: string, before: string, after: string)
    requires '$' !in pre && '$' !in post
    ensures Expand(Script(pre + "$&" + post) + HeadClose, matched, before, after)
      == Script(pre + matched + post) + HeadClose
  {
    var open := "<script>window.dashboardData = ";
    var head, tail := open + pre, post + ";</script>" + HeadClose;
    assert '$' !in head by {
      assert '$' !in open;
    }
    assert '$' !in tail by {
      assert '$' !in ";</script>" + HeadClose;
    }
    var rest := "$&" + tail;
    assert Script(pre + "$&" + post) + HeadClose == head + rest by {
      Regroup(open, pre, "$&", post, ";</script>", HeadClose);
    }
    ExpandPrefix(head, rest, matched, before, after);
    assert Expand(rest, matched, before, after) == matched + Expand(tail, matched, before, after) by {
      assert rest[0] == '$' && rest[1] == '&' && rest[2..] == tail;
    }
    ExpandLiteral(tail, matched, before, after);
    Regroup(open, pre, matched, post, ";</script>", HeadClose);
  }

  lemma Regroup(a: string, b: string, c: string, d: string, e: string, f: string)
    ensures (a + b) + c + (d + e + f) == a + (b + c + d) + e + f
  {
  }

  /** `GET /` behind `requireAuth`. */
  function Dashboard(session: Option<SessionView>, page: Result<string>, serialise: DashboardData -> string): (r: Response)
    ensures RequireAuth(session).Deny? ==> r == Redirect("/")
    ensures RequireAuth(session).Next? && page.Err? ==> r == Send(500, ReadFailed)
    ensures RequireAuth(session).Next? && page.Ok? ==> r == Send(200, Inject(page.value, serialise(Data(session.value))))
  {
    match RequireAuth(session)
    case Deny(response) => response
    case Next =>
      match page
      case Err(_) => Send(500, ReadFailed)
      case Ok(html) => Send(200, Inject(html, serialise(Data(session.value))))
  }

  /** After a login the session holds the id and name of the stored user and no display name, so
      the dashboard opens and shows the user name as display name; after a logout it redirects. */
  lemma DashboardAfterLogin(id: string, name: string, page: Result<string>, serialise: DashboardData -> string)
    requires id != "" && name != ""
    ensures var v := SessionView(Some(id), Some(name), None);
      RequireAuth(Some(v)) == Next && Data(v) == DashboardData(name, Some(id), name)
      && Dashboard(Some(v), page, serialise) != Redirect("/")
    ensures Dashboard(Some(SessionView(None, None, None)), page, serialise) == Redirect("/")
  {
  }
}
