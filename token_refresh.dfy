/** The token-refresh coordinator (src/services/TokenRefreshService.js).

    The per-user decision, the refresh and the sweep are first defined as functions of the provider's
    answers and the store's state before the call (`RefreshSpec`, `CheckSpec`, `Fold`, `SweepSpec`);
    the methods of `TokenRefreshService` perform the same steps one `await` at a time and are proved
    to produce exactly those results. Each function's `calls` lists the provider requests and store
    writes issued, in order. */
module TokenRefresh {
  import opened Wrappers
  import opened Text
  import opened TwitchApi
  import opened UserService

  /** `{ valid, refreshed }` as returned by `checkAndRefreshToken`. */
  datatype CheckResult = CheckResult(valid: bool, refreshed: bool)

  const StillValid: CheckResult := CheckResult(true, false)
  const Renewed: CheckResult := CheckResult(false, true)

  /** A request to the provider or a write to the store. */
  datatype Call =
    | Validate(accessToken: string)
    | Refresh(refreshToken: string)
    | WriteTokens(twitchId: string, accessToken: string, refreshToken: string)

  /** The result of a step, the store's records after it, and the calls it issued. */
  datatype Effect<T> = Effect(result: Result<T>, users: map<string, User>, calls: seq<Call>)

  /** `expiresIn < this.refreshThreshold`; a comparison with an undefined threshold is false. */
  predicate IsStale(expiresIn: int, threshold: Option<int>) {
    threshold.Some? && expiresIn < threshold.value
  }

  /** The test of the catch clause: the message names an invalid or expired token. */
  predicate IsInvalidTokenError(message: string) {
    Contains(message, "ungültig") || Contains(message, "abgelaufen")
  }

  /** `refreshUserToken(user)`: one refresh request, then one token write under `user.twitchId`
      with the provider's refresh token if it sent a non-empty one and the old one otherwise. */
  function RefreshSpec(tw: Twitch, outage: Option<string>, users: map<string, User>, user: User, now: int): (e: Effect<User>)
    ensures e.users.Keys == users.Keys
    ensures e.result.Err? ==> e.users == users
    ensures e.result.Ok? ==> user.twitchId in users && e.users == users[user.twitchId := e.result.value]
    ensures 1 <= |e.calls| <= 2 && e.calls[0] == Refresh(user.refreshToken)
    ensures tw.refresh(user.refreshToken).None? ==> e == Effect(Err(RefreshFailed), users, [Refresh(user.refreshToken)])
    ensures tw.refresh(user.refreshToken).Some? ==>
      var t := tw.refresh(user.refreshToken).value;
      e.calls == [Refresh(user.refreshToken), WriteTokens(user.twitchId, t.accessToken, OrElse(t.refreshToken, user.refreshToken))]
  {
    match RefreshAccessToken(tw, user.refreshToken)
    case Err(m) => Effect(Err(m), users, [Refresh(user.refreshToken)])
    case Ok(t) =>
      var rt := OrElse(t.refreshToken, user.refreshToken);
      var w := TokensResult(users, outage, user.twitchId, t.accessToken, rt, now);
      Effect(w, if w.Ok? then users[user.twitchId := w.value] else users,
             [Refresh(user.refreshToken), WriteTokens(user.twitchId, t.accessToken, rt)])
  }

  /** The catch clause of `checkAndRefreshToken`, entered with the error `message`: an
      invalid-token error leads to one refresh whose own failure is rethrown; any other error is
      rethrown as it is, with no further call. */
  function Recover(tw: Twitch, outage: Option<string>, users: map<string, User>, user: User, now: int,
                   message: string): (e: Effect<CheckResult>)
    ensures e.users.Keys == users.Keys
    ensures e.result.Ok? ==> e.result.value == Renewed
    ensures e.result.Err? ==> e.users == users
    ensures !IsInvalidTokenError(message) ==> e == Effect(Err(message), users, [])
    ensures IsInvalidTokenError(message) ==>
      var r := RefreshSpec(tw, outage, users, user, now);
      e.calls == r.calls && e.users == r.users
      && (r.result.Ok? ==> e.result == Ok(Renewed))
      && (r.result.Err? ==> e.result == Err(r.result.message))
  {
    if IsInvalidTokenError(message) then
      var r := RefreshSpec(tw, outage, users, user, now);
      Effect(if r.result.Ok? then Ok(Renewed) else Err(r.result.message), r.users, r.calls)
    else
      Effect(Err(message), users, [])
  }

  /** `checkAndRefreshToken(user)`. The refresh on the stale path sits inside the `try`, so its
      failure is classified by the catch clause like a validation failure. */
  function CheckSpec(tw: Twitch, threshold: Option<int>, outage: Option<string>, users: map<string, User>,
                     user: User, now: int): (e: Effect<CheckResult>)
    ensures e.result.Ok? ==> e.result.value == StillValid || e.result.value == Renewed
    ensures e.result == Ok(StillValid) ==> e.users == users && e.calls == [Validate(user.accessToken)]
    ensures e.result.Err? ==> e.users == users
    ensures e.users.Keys == users.Keys
    ensures |e.calls| >= 1 && e.calls[0] == Validate(user.accessToken)
  {
    var first := [Validate(user.accessToken)];
    match ValidateToken(tw, user.accessToken)
    case Ok(v) =>
      if IsStale(v.expiresIn, threshold) then
        var r := RefreshSpec(tw, outage, users, user, now);
        if r.result.Ok? then Effect(Ok(Renewed), r.users, first + r.calls)
        else
          var c := Recover(tw, outage, users, user, now, r.result.message);
          Effect(c.result, c.users, first + r.calls + c.calls)
      else
        Effect(Ok(StillValid), users, first)
    case Err(m) =>
      var c := Recover(tw, outage, users, user, now, m);
      Effect(c.result, c.users, first + c.calls)
  }

  /** `refreshTokenForUser(twitchId)`: look the record up, fail before any request when it is
      absent, and otherwise decide exactly as `checkAndRefreshToken` does. */
  function ManualSpec(tw: Twitch, threshold: Option<int>, outage: Option<string>, users: map<string, User>,
                      twitchId: string, now: int): (e: Effect<CheckResult>)
    ensures e.users.Keys == users.Keys
    ensures outage.Some? ==> e == Effect(Err(outage.value), users, [])
    ensures outage.None? && twitchId !in users ==> e == Effect(Err(NotFoundMessage(twitchId)), users, [])
    ensures e.calls != [] ==> twitchId in users && e.calls[0] == Validate(users[twitchId].accessToken)
    ensures e.result.Ok? ==> twitchId in users && (e.result.value == StillValid || e.result.value == Renewed)
  {
    if outage.Some? then Effect(Err(outage.value), users, [])
    else if twitchId !in users then Effect(Err(NotFoundMessage(twitchId)), users, [])
    else CheckSpec(tw, threshold, outage, users, users[twitchId], now)
  }

  // ---------------------------------------------------------------------------
  // the sweep

  /** The three counters of `checkAllTokens`. */
  datatype Tally = Tally(valid: nat, refreshed: nat, errors: nat)

  function Total(t: Tally): nat {
    t.valid + t.refreshed + t.errors
  }

  /** One turn of the loop body: a thrown error counts as an error, otherwise `refreshed` is tested
      before `valid`. */
  function Tick(t: Tally, r: Result<CheckResult>): (u: Tally)
    ensures r.Err? ==> u.errors == t.errors + 1 && u.valid == t.valid && u.refreshed == t.refreshed
    ensures r.Ok? ==> u.errors == t.errors
    ensures r == Ok(Renewed) ==> u.refreshed == t.refreshed + 1 && u.valid == t.valid
    ensures r == Ok(StillValid) ==> u.valid == t.valid + 1 && u.refreshed == t.refreshed
    ensures Total(u) == Total(t) + (if r.Err? || r.value.refreshed || r.value.valid then 1 else 0)
  {
    if r.Err? then t.(errors := t.errors + 1)
    else if r.value.refreshed then t.(refreshed := t.refreshed + 1)
    else if r.value.valid then t.(valid := t.valid + 1)
    else t
  }

  /** The counters, the store and the calls after the loop has processed `list`. */
  datatype Pass = Pass(tally: Tally, users: map<string, User>, calls: seq<Call>)

  /** The `for…of` loop over the listed users, in list order; each user is checked against the
      store as the earlier users left it. */
  function Fold(tw: Twitch, threshold: Option<int>, outage: Option<string>, users: map<string, User>,
                list: seq<User>, now: int): (p: Pass)
    ensures p.users.Keys == users.Keys
    decreases |list|
  {
    if |list| == 0 then Pass(Tally(0, 0, 0), users, [])
    else
      var p := Fold(tw, threshold, outage, users, list[..|list| - 1], now);
      var e := CheckSpec(tw, threshold, outage, p.users, list[|list| - 1], now);
      Pass(Tick(p.tally, e.result), e.users, p.calls + e.calls)
  }

  /** What the sweep reports: the listing failed (caught and logged), there was nobody to
      check, or the final counters. */
  datatype SweepOutcome = ListingFailed(message: string) | NoUsers | Completed(tally: Tally)

  datatype SweepRun = SweepRun(outcome: SweepOutcome, users: map<string, User>, calls: seq<Call>)

  /** `checkAllTokens()` given the listing the store returns. */
  function SweepSpec(tw: Twitch, threshold: Option<int>, outage: Option<string>, users: map<string, User>,
                     listing: seq<User>, now: int): (s: SweepRun)
    ensures outage.Some? ==> s == SweepRun(ListingFailed(outage.value), users, [])
    ensures outage.None? && |listing| == 0 ==> s == SweepRun(NoUsers, users, [])
  {
    if outage.Some? then SweepRun(ListingFailed(outage.value), users, [])
    else if |listing| == 0 then SweepRun(NoUsers, users, [])
    else
      var p := Fold(tw, threshold, outage, users, listing, now);
      SweepRun(Completed(p.tally), p.users, p.calls)
  }

  // ---------------------------------------------------------------------------
  // properties of the decision

  /** The provider's validation failure message is always classified as an invalid token. */
  lemma ValidationFailureIsInvalidToken()
    ensures IsInvalidTokenError(ValidationFailed)
  {
    assert ValidationFailed == "Token ist " + "ungültig" + " oder abgelaufen.";
    ContainsMiddle("Token ist ", "ungültig", " oder abgelaufen.");
  }

  /** The provider's refresh failure message is not classified as an invalid token, so a failed
      refresh on the stale path is rethrown without a second attempt. */
  lemma RefreshFailureIsNotInvalidToken()
    ensures !IsInvalidTokenError(RefreshFailed)
  {
    assert 'ü' in "ungültig" && 'b' in "abgelaufen";
    assert 'ü' !in RefreshFailed && 'b' !in RefreshFailed;
    MissingCharNotContained(RefreshFailed, "ungültig", 'ü');
    MissingCharNotContained(RefreshFailed, "abgelaufen", 'b');
  }

  /** With the threshold left undefined, a successful validation always ends in
      `{valid: true, refreshed: false}` with no refresh and no write. */
  lemma UnsetThresholdNeverRefreshesValidToken(tw: Twitch, outage: Option<string>, users: map<string, User>, user: User, now: int)
    requires tw.validate(user.accessToken).Some?
    ensures CheckSpec(tw, None, outage, users, user, now) == Effect(Ok(StillValid), users, [Validate(user.accessToken)])
  {
  }

  /** A token that validates with at least the threshold left is kept, whatever the threshold. */
  lemma FreshTokenKept(tw: Twitch, threshold: Option<int>, outage: Option<string>, users: map<string, User>, user: User, now: int)
    requires tw.validate(user.accessToken).Some?
    requires !IsStale(tw.validate(user.accessToken).value.expiresIn, threshold)
    ensures CheckSpec(tw, threshold, outage, users, user, now) == Effect(Ok(StillValid), users, [Validate(user.accessToken)])
  {
  }

  /** A stale token is refreshed exactly once, written once, and reported as refreshed. */
  lemma StaleTokenRefreshedOnce(tw: Twitch, threshold: Option<int>, users: map<string, User>, user: User, now: int)
    requires tw.validate(user.accessToken).Some?
    requires IsStale(tw.validate(user.accessToken).value.expiresIn, threshold)
    requires tw.refresh(user.refreshToken).Some? && tw.refresh(user.refreshToken).value.accessToken != ""
    requires user.twitchId in users && user.refreshToken != ""
    ensures var t := tw.refresh(user.refreshToken).value;
      var rt := OrElse(t.refreshToken, user.refreshToken);
      var e := CheckSpec(tw, threshold, None, users, user, now);
      e.result == Ok(Renewed)
      && e.calls == [Validate(user.accessToken), Refresh(user.refreshToken), WriteTokens(user.twitchId, t.accessToken, rt)]
      && e.users == users[user.twitchId := users[user.twitchId].(accessToken := t.accessToken, refreshToken := rt, updatedAt := now)]
  {
  }

  /** A rejected access token leads to one refresh; a successful one is reported as refreshed. */
  lemma InvalidTokenRefreshed(tw: Twitch, threshold: Option<int>, users: map<string, User>, user: User, now: int)
    requires tw.validate(user.accessToken).None?
    requires tw.refresh(user.refreshToken).Some? && tw.refresh(user.refreshToken).value.accessToken != ""
    requires user.twitchId in users && user.refreshToken != ""
    ensures var t := tw.refresh(user.refreshToken).value;
      var rt := OrElse(t.refreshToken, user.refreshToken);
      var e := CheckSpec(tw, threshold, None, users, user, now);
      e.result == Ok(Renewed)
      && e.calls == [Validate(user.accessToken), Refresh(user.refreshToken), WriteTokens(user.twitchId, t.accessToken, rt)]
      && e.users == users[user.twitchId := users[user.twitchId].(accessToken := t.accessToken, refreshToken := rt, updatedAt := now)]
  {
    ValidationFailureIsInvalidToken();
  }

  /** A rejected access token whose refresh also fails ends in the refresh's own error, unchanged,
      with the store untouched. */
  lemma FailedRefreshRethrown(tw: Twitch, threshold: Option<int>, outage: Option<string>, users: map<string, User>, user: User, now: int)
    requires tw.validate(user.accessToken).None?
    requires tw.refresh(user.refreshToken).None?
    ensures CheckSpec(tw, threshold, outage, users, user, now)
      == Effect(Err(RefreshFailed), users, [Validate(user.accessToken), Refresh(user.refreshToken)])
  {
    ValidationFailureIsInvalidToken();
  }

  /** On the stale path, a refresh failure that does not name an invalid token is rethrown as it is,
      with no second refresh. */
  lemma StaleRefreshErrorRethrown(tw: Twitch, threshold: Option<int>, outage: Option<string>, users: map<string, User>, user: User, now: int)
    requires tw.validate(user.accessToken).Some?
    requires IsStale(tw.validate(user.accessToken).value.expiresIn, threshold)
    requires RefreshSpec(tw, outage, users, user, now).result.Err?
    requires !IsInvalidTokenError(RefreshSpec(tw, outage, users, user, now).result.message)
    ensures var r := RefreshSpec(tw, outage, users, user, now);
      CheckSpec(tw, threshold, outage, users, user, now)
        == Effect(Err(r.result.message), users, [Validate(user.accessToken)] + r.calls)
  {
  }

  /** After a successful refresh the store holds the new access token, the provider's refresh token
      when it sent a non-empty one and the previous one otherwise, and the record's other fields. */
  lemma RefreshRoundTrip(tw: Twitch, users: map<string, User>, user: User, now: int)
    requires RefreshSpec(tw, None, users, user, now).result.Ok?
    ensures var t := tw.refresh(user.refreshToken).value;
      var stored := RefreshSpec(tw, None, users, user, now).users[user.twitchId];
      && tw.refresh(user.refreshToken).Some?
      && stored.accessToken == t.accessToken
      && (Truthy(t.refreshToken) ==> stored.refreshToken == t.refreshToken.value)
      && (!Truthy(t.refreshToken) ==> stored.refreshToken == user.refreshToken)
      && stored.username == users[user.twitchId].username && stored.scope == users[user.twitchId].scope
      && stored.lastLogin == users[user.twitchId].lastLogin
      && stored.createdAt == users[user.twitchId].createdAt && stored.twitchId == users[user.twitchId].twitchId
  {
  }

  /** A rejected access token whose refresh is answered but whose token write fails ends in the
      store's own error, unchanged, after exactly one refresh and one attempted write. */
  lemma StoreWriteFailureRethrown(tw: Twitch, threshold: Option<int>, outage: Option<string>, users: map<string, User>,
                                  user: User, now: int)
    requires tw.validate(user.accessToken).None?
    requires tw.refresh(user.refreshToken).Some?
    requires var t := tw.refresh(user.refreshToken).value;
      TokensResult(users, outage, user.twitchId, t.accessToken, OrElse(t.refreshToken, user.refreshToken), now).Err?
    ensures var t := tw.refresh(user.refreshToken).value;
      var rt := OrElse(t.refreshToken, user.refreshToken);
      CheckSpec(tw, threshold, outage, users, user, now)
        == Effect(Err(TokensResult(users, outage, user.twitchId, t.accessToken, rt, now).message), users,
                  [Validate(user.accessToken), Refresh(user.refreshToken), WriteTokens(user.twitchId, t.accessToken, rt)])
  {
    ValidationFailureIsInvalidToken();
  }

  /** A renewal always means the refresh was answered and the new pair was written: the stored
      record then holds the new access token, the provider's refresh token if it sent one and the
      old one otherwise, and the write is among the requests. This holds on both paths, the stale
      one and the catch clause. */
  lemma RenewedMeansWritten(tw: Twitch, threshold: Option<int>, outage: Option<string>, users: map<string, User>,
                            user: User, now: int)
    ensures var e := CheckSpec(tw, threshold, outage, users, user, now);
      e.result == Ok(Renewed) ==>
        && tw.refresh(user.refreshToken).Some?
        && user.twitchId in users
        && var t := tw.refresh(user.refreshToken).value;
           var rt := OrElse(t.refreshToken, user.refreshToken);
           && e.users == users[user.twitchId := users[user.twitchId].(accessToken := t.accessToken, refreshToken := rt, updatedAt := now)]
           && WriteTokens(user.twitchId, t.accessToken, rt) in e.calls
  {
    var e := CheckSpec(tw, threshold, outage, users, user, now);
    if e.result == Ok(Renewed) {
      var r := RefreshSpec(tw, outage, users, user, now);
      assert r.result.Ok? && e.users == r.users && forall c :: c in r.calls ==> c in e.calls;
    }
  }

  /** A manual refresh for an absent id fails with a "nicht gefunden" error before any request. */
  lemma ManualUnknownUser(tw: Twitch, threshold: Option<int>, users: map<string, User>, twitchId: string, now: int)
    requires twitchId !in users
    ensures var e := ManualSpec(tw, threshold, None, users, twitchId, now);
      e.result.Err? && Contains(e.result.message, "nicht gefunden") && e.calls == [] && e.users == users
  {
    var head := "Benutzer mit ID " + twitchId + " ";
    assert NotFoundMessage(twitchId) == head + "nicht gefunden" + ".";
    ContainsMiddle(head, "nicht gefunden", ".");
  }

  /** A manual refresh for a stored id decides exactly as the sweep does for that record. */
  lemma ManualDelegates(tw: Twitch, threshold: Option<int>, users: map<string, User>, twitchId: string, now: int)
    requires twitchId in users
    ensures ManualSpec(tw, threshold, None, users, twitchId, now) == CheckSpec(tw, threshold, None, users, users[twitchId], now)
  {
  }

  // ---------------------------------------------------------------------------
  // properties of the sweep

  /** Every listed user is counted exactly once: `valid + refreshed + errors` is the list's length. */
  lemma {:induction false} FoldCountsEveryUser(tw: Twitch, threshold: Option<int>, outage: Option<string>,
                                                users: map<string, User>, list: seq<User>, now: int)
    ensures Total(Fold(tw, threshold, outage, users, list, now).tally) == |list|
    decreases |list|
  {
    if |list| > 0 {
      FoldCountsEveryUser(tw, threshold, outage, users, list[..|list| - 1], now);
    }
  }

  /** The sweep issues every listed user's validation request, the first user's first. */
  lemma {:induction false} FoldValidatesEveryUser(tw: Twitch, threshold: Option<int>, outage: Option<string>,
                                                 users: map<string, User>, list: seq<User>, now: int)
    ensures var c := Fold(tw, threshold, outage, users, list, now).calls;
      |c| >= |list| && forall i :: 0 <= i < |list| ==> Validate(list[i].accessToken) in c
    ensures |list| > 0 ==> Fold(tw, threshold, outage, users, list, now).calls[0] == Validate(list[0].accessToken)
    decreases |list|
  {
    if |list| > 0 {
      var init := list[..|list| - 1];
      FoldValidatesEveryUser(tw, threshold, outage, users, init, now);
      var ec := FoldLastCalls(tw, threshold, outage, users, list, now);
      ExtendValidated(list, Fold(tw, threshold, outage, users, init, now).calls, ec);
    }
  }

  /** The calls of a non-empty sweep are those for all but the last user, then the last user's,
      which start with its validation. */
  lemma FoldLastCalls(tw: Twitch, threshold: Option<int>, outage: Option<string>,
                      users: map<string, User>, list: seq<User>, now: int) returns (ec: seq<Call>)
    requires |list| > 0
    ensures Fold(tw, threshold, outage, users, list, now).calls
      == Fold(tw, threshold, outage, users, list[..|list| - 1], now).calls + ec
    ensures |ec| >= 1 && ec[0] == Validate(list[|list| - 1].accessToken)
    ensures |list| == 1 ==> Fold(tw, threshold, outage, users, list[..|list| - 1], now).calls == []
    ensures ValidatedTokens(ec) == [list[|list| - 1].accessToken]
  {
    var p := Fold(tw, threshold, outage, users, list[..|list| - 1], now);
    ec := CheckSpec(tw, threshold, outage, p.users, list[|list| - 1], now).calls;
    CheckValidatesOnce(tw, threshold, outage, p.users, list[|list| - 1], now);
  }

  /** The tokens of the validation requests among `calls`, in the order they are issued. */
  function ValidatedTokens(calls: seq<Call>): (r: seq<string>)
    ensures |r| <= |calls|
    decreases |calls|
  {
    if |calls| == 0 then []
    else
      var last := calls[|calls| - 1];
      ValidatedTokens(calls[..|calls| - 1]) + (if last.Validate? then [last.accessToken] else [])
  }

  lemma {:induction false} ValidatedTokensAppend(a: seq<Call>, b: seq<Call>)
    ensures ValidatedTokens(a + b) == ValidatedTokens(a) + ValidatedTokens(b)
    decreases |b|
  {
    if |b| == 0 {
      assert a + b == a;
    } else {
      var bi := b[..|b| - 1];
      assert (a + b)[..|a + b| - 1] == a + bi;
      ValidatedTokensAppend(a, bi);
    }
  }

  function AccessTokens(list: seq<User>): (r: seq<string>)
    ensures |r| == |list| && forall i :: 0 <= i < |list| ==> r[i] == list[i].accessToken
  {
    seq(|list|, i requires 0 <= i < |list| => list[i].accessToken)
  }

  /** One user's decision validates exactly once: refreshes and writes are no validations. */
  lemma CheckValidatesOnce(tw: Twitch, threshold: Option<int>, outage: Option<string>, users: map<string, User>,
                           user: User, now: int)
    ensures ValidatedTokens(CheckSpec(tw, threshold, outage, users, user, now).calls) == [user.accessToken]
  {
    var first := [Validate(user.accessToken)];
    var rest := CheckCallsShape(tw, threshold, outage, users, user, now);
    ValidatedTokensAppend(first, rest);
    RefreshValidatesNothing(rest);
    assert first[..0] == [];
  }

  /** A decision's requests are its validation followed by requests that validate nothing. */
  lemma CheckCallsShape(tw: Twitch, threshold: Option<int>, outage: Option<string>, users: map<string, User>,
                        user: User, now: int) returns (rest: seq<Call>)
    ensures CheckSpec(tw, threshold, outage, users, user, now).calls == [Validate(user.accessToken)] + rest
    ensures NoValidation(rest)
  {
    var first := [Validate(user.accessToken)];
    var r := RefreshSpec(tw, outage, users, user, now);
    match ValidateToken(tw, user.accessToken)
    case Ok(v) =>
      if !IsStale(v.expiresIn, threshold) {
        rest := [];
      } else if r.result.Ok? {
        rest := r.calls;
      } else {
        var c := Recover(tw, outage, users, user, now, r.result.message);
        RecoverValidatesNothing(tw, outage, users, user, now, r.result.message);
        rest := r.calls + c.calls;
      }
    case Err(m) =>
      RecoverValidatesNothing(tw, outage, users, user, now, m);
      rest := Recover(tw, outage, users, user, now, m).calls;
  }

  lemma RecoverValidatesNothing(tw: Twitch, outage: Option<string>, users: map<string, User>, user: User, now: int,
                                message: string)
    ensures NoValidation(RefreshSpec(tw, outage, users, user, now).calls)
    ensures NoValidation(Recover(tw, outage, users, user, now, message).calls)
  {
  }

  predicate NoValidation(calls: seq<Call>) {
    forall i :: 0 <= i < |calls| ==> !calls[i].Validate?
  }

  lemma RefreshValidatesNothing(calls: seq<Call>)
    requires NoValidation(calls)
    ensures ValidatedTokens(calls) == []
    decreases |calls|
  {
    if |calls| > 0 {
      RefreshValidatesNothing(calls[..|calls| - 1]);
    }
  }

  /** The sweep validates the listed users' tokens one after the other, in list order, and each
      exactly once. */
  lemma {:induction false} FoldValidatesInOrder(tw: Twitch, threshold: Option<int>, outage: Option<string>,
                                                 users: map<string, User>, list: seq<User>, now: int)
    ensures ValidatedTokens(Fold(tw, threshold, outage, users, list, now).calls) == AccessTokens(list)
    decreases |list|
  {
    if |list| == 0 {
      assert Fold(tw, threshold, outage, users, list, now).calls == [];
    } else {
      var init := list[..|list| - 1];
      FoldValidatesInOrder(tw, threshold, outage, users, init, now);
      var ec := FoldLastCalls(tw, threshold, outage, users, list, now);
      JoinValidations(Fold(tw, threshold, outage, users, init, now).calls, ec, list);
    }
  }

  lemma JoinValidations(pc: seq<Call>, ec: seq<Call>, list: seq<User>)
    requires |list| > 0
    requires ValidatedTokens(pc) == AccessTokens(list[..|list| - 1])
    requires ValidatedTokens(ec) == [list[|list| - 1].accessToken]
    ensures ValidatedTokens(pc + ec) == AccessTokens(list)
  {
    ValidatedTokensAppend(pc, ec);
    AccessTokensSnoc(list);
  }

  lemma AccessTokensSnoc(list: seq<User>)
    requires |list| > 0
    ensures AccessTokens(list) == AccessTokens(list[..|list| - 1]) + [list[|list| - 1].accessToken]
  {
  }

  /** Appending the last user's calls, which start with its validation, keeps the earlier users'
      validations and their order. */
  lemma ExtendValidated(list: seq<User>, pc: seq<Call>, ec: seq<Call>)
    requires |list| > 0
    requires var init := list[..|list| - 1];
      |pc| >= |init| && forall i :: 0 <= i < |init| ==> Validate(init[i].accessToken) in pc
    requires |list| == 1 ==> pc == []
    requires var init := list[..|list| - 1];
      |init| > 0 ==> pc[0] == Validate(init[0].accessToken)
    requires |ec| >= 1 && ec[0] == Validate(list[|list| - 1].accessToken)
    ensures |pc + ec| >= |list| && forall i :: 0 <= i < |list| ==> Validate(list[i].accessToken) in pc + ec
    ensures (pc + ec)[0] == Validate(list[0].accessToken)
  {
    assert forall i :: 0 <= i < |list| - 1 ==> list[..|list| - 1][i] == list[i];
    forall i | 0 <= i < |list|
      ensures Validate(list[i].accessToken) in pc + ec
    {
      if i == |list| - 1 {
        assert (pc + ec)[|pc|] == ec[0];
      }
    }
  }

  /** Whether a refresh succeeds, and the error it fails with, depend on the store only through
      which keys it holds. */
  lemma RefreshResultDependsOnKeys(tw: Twitch, outage: Option<string>, u1: map<string, User>, u2: map<string, User>,
                                   user: User, now: int)
    requires u1.Keys == u2.Keys
    ensures var r1, r2 := RefreshSpec(tw, outage, u1, user, now), RefreshSpec(tw, outage, u2, user, now);
      r1.result.Ok? == r2.result.Ok? && (r1.result.Err? ==> r1.result.message == r2.result.message)
  {
    assert (user.twitchId in u1) == (user.twitchId in u2);
  }

  /** A user's result depends on the store only through which keys it holds. */
  lemma CheckResultDependsOnKeys(tw: Twitch, threshold: Option<int>, outage: Option<string>,
                                 u1: map<string, User>, u2: map<string, User>, user: User, now: int)
    requires u1.Keys == u2.Keys
    ensures CheckSpec(tw, threshold, outage, u1, user, now).result == CheckSpec(tw, threshold, outage, u2, user, now).result
  {
    match ValidateToken(tw, user.accessToken)
    case Err(m) =>
      RecoverResultDependsOnKeys(tw, outage, u1, u2, user, now, m);
    case Ok(v) =>
      if IsStale(v.expiresIn, threshold) {
        RefreshResultDependsOnKeys(tw, outage, u1, u2, user, now);
        var r1 := RefreshSpec(tw, outage, u1, user, now);
        if r1.result.Err? {
          RecoverResultDependsOnKeys(tw, outage, u1, u2, user, now, r1.result.message);
        }
      }
  }

  lemma RecoverResultDependsOnKeys(tw: Twitch, outage: Option<string>, u1: map<string, User>, u2: map<string, User>,
                                   user: User, now: int, message: string)
    requires u1.Keys == u2.Keys
    ensures Recover(tw, outage, u1, user, now, message).result == Recover(tw, outage, u2, user, now, message).result
  {
    RefreshResultDependsOnKeys(tw, outage, u1, u2, user, now);
  }

  /** The counters of a list of individual results. */
  function TallyOf(results: seq<Result<CheckResult>>): Tally
    decreases |results|
  {
    if |results| == 0 then Tally(0, 0, 0)
    else Tick(TallyOf(results[..|results| - 1]), results[|results| - 1])
  }

  /** Each user's result against the store as it was when the sweep started. */
  function AloneResults(tw: Twitch, threshold: Option<int>, outage: Option<string>, users: map<string, User>,
                        list: seq<User>, now: int): (rs: seq<Result<CheckResult>>)
    ensures |rs| == |list|
  {
    seq(|list|, i requires 0 <= i < |list| => CheckSpec(tw, threshold, outage, users, list[i], now).result)
  }

  /** The last user of a fold counts as if checked against the starting store. */
  lemma FoldLastAlone(tw: Twitch, threshold: Option<int>, outage: Option<string>,
                      users: map<string, User>, list: seq<User>, now: int)
    requires |list| > 0
    ensures Fold(tw, threshold, outage, users, list, now).tally
      == Tick(Fold(tw, threshold, outage, users, list[..|list| - 1], now).tally,
              CheckSpec(tw, threshold, outage, users, list[|list| - 1], now).result)
  {
    var p := Fold(tw, threshold, outage, users, list[..|list| - 1], now);
    CheckResultDependsOnKeys(tw, threshold, outage, p.users, users, list[|list| - 1], now);
  }

  /** The sweep's counters are those of the users checked one by one against the starting store:
      earlier refreshes never change a later user's outcome. */
  lemma {:induction false} FoldIsIndependent(tw: Twitch, threshold: Option<int>, outage: Option<string>,
                                              users: map<string, User>, list: seq<User>, now: int)
    ensures Fold(tw, threshold, outage, users, list, now).tally == TallyOf(AloneResults(tw, threshold, outage, users, list, now))
    decreases |list|
  {
    if |list| > 0 {
      var init := list[..|list| - 1];
      FoldIsIndependent(tw, threshold, outage, users, init, now);
      FoldLastAlone(tw, threshold, outage, users, list, now);
      var rs := AloneResults(tw, threshold, outage, users, list, now);
      assert rs[..|rs| - 1] == AloneResults(tw, threshold, outage, users, init, now);
      assert TallyOf(rs) == Tick(TallyOf(rs[..|rs| - 1]), rs[|rs| - 1]);
    }
  }

  /** Over results of the two possible shapes, the counters add up to the number of results. */
  lemma {:induction false} TallyOfTotal(results: seq<Result<CheckResult>>)
    requires forall i :: 0 <= i < |results| ==> results[i].Ok? ==> results[i].value == StillValid || results[i].value == Renewed
    ensures Total(TallyOf(results)) == |results|
    decreases |results|
  {
    if |results| > 0 {
      var init := results[..|results| - 1];
      assert forall i :: 0 <= i < |init| ==> init[i] == results[i];
      TallyOfTotal(init);
    }
  }

  /** Each counter is the number of results of its kind, whatever their order: `refreshed` the
      renewals, `valid` the kept tokens and `errors` the rest. */
  lemma {:induction false} TallyCounts(results: seq<Result<CheckResult>>)
    requires forall i :: 0 <= i < |results| ==> results[i].Ok? ==> results[i].value == StillValid || results[i].value == Renewed
    ensures TallyOf(results).refreshed == multiset(results)[Ok(Renewed)]
    ensures TallyOf(results).valid == multiset(results)[Ok(StillValid)]
    ensures TallyOf(results).errors == |results| - multiset(results)[Ok(Renewed)] - multiset(results)[Ok(StillValid)]
    decreases |results|
  {
    if |results| > 0 {
      var init := results[..|results| - 1];
      assert forall i :: 0 <= i < |init| ==> init[i] == results[i];
      assert results == init + [results[|results| - 1]];
      TallyCounts(init);
      var last := results[|results| - 1];
      CountSnoc(init, last, Ok(Renewed));
      CountSnoc(init, last, Ok(StillValid));
      assert TallyOf(results) == Tick(TallyOf(init), last);
    }
  }

  lemma CountSnoc(init: seq<Result<CheckResult>>, last: Result<CheckResult>, r: Result<CheckResult>)
    ensures multiset(init + [last])[r] == multiset(init)[r] + (if last == r then 1 else 0)
  {
    assert multiset(init + [last]) == multiset(init) + multiset{last};
  }

  /** The sweep's counters: `refreshed` is the number of users whose token is renewed, `valid` the
      number kept and `errors` the rest, each user decided against the starting store. */
  lemma FoldCounts(tw: Twitch, threshold: Option<int>, outage: Option<string>,
                   users: map<string, User>, list: seq<User>, now: int)
    ensures var t := Fold(tw, threshold, outage, users, list, now).tally;
      var rs := AloneResults(tw, threshold, outage, users, list, now);
      && t.refreshed == multiset(rs)[Ok(Renewed)]
      && t.valid == multiset(rs)[Ok(StillValid)]
      && t.errors == |list| - multiset(rs)[Ok(Renewed)] - multiset(rs)[Ok(StillValid)]
  {
    FoldIsIndependent(tw, threshold, outage, users, list, now);
    TallyCounts(AloneResults(tw, threshold, outage, users, list, now));
  }

  /** Each counter is zero exactly when no result of its kind occurs. */
  lemma {:induction false} TallyOfZeroes(results: seq<Result<CheckResult>>)
    requires forall i :: 0 <= i < |results| ==> results[i].Ok? ==> results[i].value == StillValid || results[i].value == Renewed
    ensures TallyOf(results).errors == 0 <==> forall i :: 0 <= i < |results| ==> results[i].Ok?
    ensures TallyOf(results).refreshed == 0 <==> forall i :: 0 <= i < |results| ==> results[i] != Ok(Renewed)
    ensures TallyOf(results).valid == 0 <==> forall i :: 0 <= i < |results| ==> results[i] != Ok(StillValid)
    decreases |results|
  {
    ErrorsZero(results);
    TallyCounts(results);
    Absent(results, Ok(Renewed));
    Absent(results, Ok(StillValid));
  }

  lemma Absent(results: seq<Result<CheckResult>>, r: Result<CheckResult>)
    ensures multiset(results)[r] == 0 <==> forall i :: 0 <= i < |results| ==> results[i] != r
  {
    if multiset(results)[r] != 0 {
      assert r in results;
    }
  }

  lemma {:induction false} ErrorsZero(results: seq<Result<CheckResult>>)
    ensures TallyOf(results).errors == 0 <==> forall i :: 0 <= i < |results| ==> results[i].Ok?
    decreases |results|
  {
    if |results| > 0 {
      var init := results[..|results| - 1];
      assert forall i :: 0 <= i < |init| ==> init[i] == results[i];
      ErrorsZero(init);
      assert TallyOf(results) == Tick(TallyOf(init), results[|results| - 1]);
    }
  }

  lemma CallsAssoc(a: seq<Call>, b: seq<Call>, c: seq<Call>)
    ensures (a + b) + c == a + (b + c)
  {
  }

  /** One more user extends the fold by one check against the store the earlier users left. */
  lemma FoldStep(tw: Twitch, threshold: Option<int>, outage: Option<string>, users: map<string, User>,
                 list: seq<User>, i: nat, now: int)
    requires i < |list|
    ensures var p := Fold(tw, threshold, outage, users, list[..i], now);
      var e := CheckSpec(tw, threshold, outage, p.users, list[i], now);
      Fold(tw, threshold, outage, users, list[..i + 1], now) == Pass(Tick(p.tally, e.result), e.users, p.calls + e.calls)
  {
    assert list[..i + 1][..i] == list[..i];
  }

  // ---------------------------------------------------------------------------
  // the service object

  /** `getStatus()`; a threshold in hours of `None` stands for the `NaN` an undefined threshold gives. */
  datatype Status = Status(isRunning: bool, checkIntervalMinutes: real, refreshThresholdHours: Option<real>)

  /** The coordinator's lifecycle state and its collaborators. The repeating timer is represented by
      the handles of the timers it has armed and not cleared (`activeTimers`) and the number of
      sweeps started on its behalf; sweeps started by `start` and by the timer are counted, not
      executed, since they run detached from the caller. */
  class TokenRefreshService {
    var isRunning: bool
    var intervalId: Option<nat>
    var checkInterval: int
    /** Never assigned anywhere, so always undefined. */
    const refreshThreshold: Option<int>
    const twitch: Twitch
    const store: UserStore
    ghost var activeTimers: set<nat>
    ghost var sweepsStarted: nat
    ghost var calls: seq<Call>

    /** The store is consistent, and a timer is armed exactly while the service runs: the one
        `intervalId` names. */
    ghost predicate Valid()
      reads this, store
    {
      && store.Valid()
      && (isRunning ==> intervalId.Some? && activeTimers == {intervalId.value})
      && (!isRunning ==> activeTimers == {})
    }

    constructor (twitch: Twitch, store: UserStore)
      requires store.Valid()
      ensures Valid()
      ensures !isRunning && intervalId == None && checkInterval == 30 * 60 * 1000 && refreshThreshold == None
      ensures this.twitch == twitch && this.store == store
      ensures activeTimers == {} && sweepsStarted == 0 && calls == []
    {
      isRunning := false;
      intervalId := None;
      checkInterval := 30 * 60 * 1000;
      refreshThreshold := None;
      this.twitch := twitch;
      this.store := store;
      activeTimers := {};
      sweepsStarted := 0;
      calls := [];
    }

    /** `getStatus()`. */
    function GetStatus(): (s: Status)
      reads this
      ensures s.isRunning == isRunning
      ensures s.checkIntervalMinutes * 60000.0 == checkInterval as real
      ensures s.refreshThresholdHours.None? <==> refreshThreshold.None?
      ensures refreshThreshold.Some? ==> s.refreshThresholdHours.value * 3600.0 == refreshThreshold.value as real
    {
      Status(isRunning, checkInterval as real / 60000.0,
             if refreshThreshold.Some? then Some(refreshThreshold.value as real / 3600.0) else None)
    }

    /** `start(intervalMinutes)`; `timer` is the handle `setInterval` returns. While running it changes
        nothing; otherwise it sets the interval, starts one sweep and arms one repeating timer. */
    method Start(intervalMinutes: int, timer: nat)
      requires Valid()
      modifies this
      ensures Valid() && |activeTimers| <= 1 && calls == old(calls)
      ensures old(isRunning) ==> (isRunning && intervalId == old(intervalId) && checkInterval == old(checkInterval)
        && activeTimers == old(activeTimers) && sweepsStarted == old(sweepsStarted))
      ensures !old(isRunning) ==> (isRunning && checkInterval == intervalMinutes * 60 * 1000
        && intervalId == Some(timer) && activeTimers == {timer} && sweepsStarted == old(sweepsStarted) + 1)
      ensures !old(isRunning) ==> GetStatus().checkIntervalMinutes == intervalMinutes as real
    {
      if isRunning {
        return;
      }
      checkInterval := intervalMinutes * 60 * 1000;
      isRunning := true;
      sweepsStarted := sweepsStarted + 1;
      intervalId := Some(timer);
      activeTimers := activeTimers + {timer};
    }

    /** `stop()`: a no-op while stopped; otherwise clears the timer and stops, keeping `intervalId`
        and `checkInterval`. */
    method Stop()
      requires Valid()
      modifies this
      ensures Valid() && !isRunning && activeTimers == {}
      ensures intervalId == old(intervalId) && checkInterval == old(checkInterval)
      ensures sweepsStarted == old(sweepsStarted) && calls == old(calls)
    {
      if !isRunning {
        return;
      }
      activeTimers := activeTimers - {intervalId.value};
      isRunning := false;
    }

    /** The callback `setInterval` runs: a sweep starts only if `timer` is still armed. */
    method TimerFires(timer: nat)
      requires Valid()
      modifies this`sweepsStarted
      ensures sweepsStarted == old(sweepsStarted) + (if timer in activeTimers then 1 else 0)
      ensures timer in activeTimers ==> isRunning
    {
      if timer in activeTimers {
        sweepsStarted := sweepsStarted + 1;
      }
    }

    /** `refreshUserToken(user)`. */
    method RefreshUserToken(user: User, now: int) returns (r: Result<User>)
      requires Valid()
      modifies store, this`calls
      ensures Valid() && store.order == old(store.order) && store.outage == old(store.outage)
      ensures var e := RefreshSpec(twitch, old(store.outage), old(store.users), user, now);
        r == e.result && store.users == e.users && calls == old(calls) + e.calls
    {
      var response := RefreshAccessToken(twitch, user.refreshToken);
      calls := calls + [Refresh(user.refreshToken)];
      if response.Err? {
        return Err(response.message);
      }
      var t := response.value;
      var refreshToken := OrElse(t.refreshToken, user.refreshToken);
      calls := calls + [WriteTokens(user.twitchId, t.accessToken, refreshToken)];
      r := store.UpdateUserTokens(user.twitchId, t.accessToken, refreshToken, now);
    }

    /** `checkAndRefreshToken(user)`. */
    method CheckAndRefreshToken(user: User, now: int) returns (r: Result<CheckResult>)
      requires Valid()
      modifies store, this`calls
      ensures Valid() && store.order == old(store.order) && store.outage == old(store.outage)
      ensures var e := CheckSpec(twitch, refreshThreshold, old(store.outage), old(store.users), user, now);
        r == e.result && store.users == e.users && calls == old(calls) + e.calls
    {
      var validation := ValidateToken(twitch, user.accessToken);
      var first := [Validate(user.accessToken)];
      ghost var calls0 := calls;
      calls := calls + first;
      if validation.Ok? && !IsStale(validation.value.expiresIn, refreshThreshold) {
        return Ok(StillValid);
      }
      var failure: string;
      ghost var prefix: seq<Call> := first;
      if validation.Ok? {
        ghost var e := RefreshSpec(twitch, store.outage, store.users, user, now);
        var refreshed := RefreshUserToken(user, now);
        CallsAssoc(calls0, first, e.calls);
        if refreshed.Ok? {
          return Ok(Renewed);
        }
        failure := refreshed.message;
        prefix := first + e.calls;
      } else {
        failure := validation.message;
      }
      ghost var c := Recover(twitch, store.outage, store.users, user, now, failure);
      assert calls == calls0 + prefix;
      r := RecoverFrom(user, now, failure);
      CallsAssoc(calls0, prefix, c.calls);
    }

    /** The catch clause of `checkAndRefreshToken`. */
    method RecoverFrom(user: User, now: int, failure: string) returns (r: Result<CheckResult>)
      requires Valid()
      modifies store, this`calls
      ensures Valid() && store.order == old(store.order) && store.outage == old(store.outage)
      ensures var e := Recover(twitch, old(store.outage), old(store.users), user, now, failure);
        r == e.result && store.users == e.users && calls == old(calls) + e.calls
    {
      if IsInvalidTokenError(failure) {
        var refreshed := RefreshUserToken(user, now);
        if refreshed.Ok? {
          return Ok(Renewed);
        }
        return Err(refreshed.message);
      }
      assert calls == calls + [];
      return Err(failure);
    }

    /** `checkAllTokens()`: never throws; a failed listing is reported, not raised. */
    method CheckAllTokens(now: int) returns (outcome: SweepOutcome)
      requires Valid()
      modifies store, this`calls
      ensures Valid() && store.order == old(store.order) && store.outage == old(store.outage)
      ensures var s := SweepSpec(twitch, refreshThreshold, old(store.outage), old(store.users), old(store.Listing()), now);
        outcome == s.outcome && store.users == s.users && calls == old(calls) + s.calls
    {
      var listed := store.GetAllUsers();
      if listed.Err? {
        return ListingFailed(listed.message);
      }
      var list := listed.value;
      if |list| == 0 {
        return NoUsers;
      }
      var tally := CheckEach(list, now);
      return Completed(tally);
    }

    /** The loop of `checkAllTokens`: every listed user in turn, counting the outcomes. */
    method CheckEach(list: seq<User>, now: int) returns (tally: Tally)
      requires Valid()
      modifies store, this`calls
      ensures Valid() && store.order == old(store.order) && store.outage == old(store.outage)
      ensures var p := Fold(twitch, refreshThreshold, old(store.outage), old(store.users), list, now);
        tally == p.tally && store.users == p.users && calls == old(calls) + p.calls
    {
      ghost var outage0, users0, calls0 := store.outage, store.users, calls;
      tally := Tally(0, 0, 0);
      var i := 0;
      while i < |list|
        invariant 0 <= i <= |list|
        invariant Valid() && store.order == old(store.order) && store.outage == outage0
        invariant var p := Fold(twitch, refreshThreshold, outage0, users0, list[..i], now);
          tally == p.tally && store.users == p.users && calls == calls0 + p.calls
      {
        tally := CheckNext(list, i, now, tally, users0, calls0);
        i := i + 1;
      }
      assert list[..|list|] == list;
    }

    /** One turn of the loop of `checkAllTokens`: checks `list[i]` and extends the fold by it. */
    method CheckNext(list: seq<User>, i: nat, now: int, tally: Tally, ghost users0: map<string, User>, ghost calls0: seq<Call>)
      returns (tally': Tally)
      requires Valid() && i < |list|
      requires var p := Fold(twitch, refreshThreshold, store.outage, users0, list[..i], now);
        tally == p.tally && store.users == p.users && calls == calls0 + p.calls
      modifies store, this`calls
      ensures Valid() && store.order == old(store.order) && store.outage == old(store.outage)
      ensures var q := Fold(twitch, refreshThreshold, store.outage, users0, list[..i + 1], now);
        tally' == q.tally && store.users == q.users && calls == calls0 + q.calls
    {
      ghost var outage0 := store.outage;
      ghost var p := Fold(twitch, refreshThreshold, outage0, users0, list[..i], now);
      ghost var e := CheckSpec(twitch, refreshThreshold, outage0, p.users, list[i], now);
      ghost var q := Fold(twitch, refreshThreshold, outage0, users0, list[..i + 1], now);
      FoldStep(twitch, refreshThreshold, outage0, users0, list, i, now);
      assert q == Pass(Tick(p.tally, e.result), e.users, p.calls + e.calls);
      ghost var before := calls;
      var result := CheckAndRefreshToken(list[i], now);
      assert result == e.result && store.users == e.users && calls == before + e.calls;
      CallsAssoc(calls0, p.calls, e.calls);
      tally' := Tick(tally, result);
    }

    /** `refreshTokenForUser(twitchId)`. */
    method RefreshTokenForUser(twitchId: string, now: int) returns (r: Result<CheckResult>)
      requires Valid()
      modifies store, this`calls
      ensures Valid() && store.order == old(store.order) && store.outage == old(store.outage)
      ensures var e := ManualSpec(twitch, refreshThreshold, old(store.outage), old(store.users), twitchId, now);
        r == e.result && store.users == e.users && calls == old(calls) + e.calls
    {
      var found := store.FindByTwitchId(twitchId);
      if found.Err? {
        return Err(found.message);
      }
      if found.value.None? {
        return Err(NotFoundMessage(twitchId));
      }
      r := CheckAndRefreshToken(found.value.value, now);
    }
  }
}
