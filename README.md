# TwitchBot-Kognito: a Dafny model of the token-refresh coordinator and its neighbours

This project models the core of a Twitch chat bot and its login dashboard:

- the **token-refresh coordinator** (`TokenRefreshService`). It validates every stored user's access
  token with Twitch, refreshes tokens that are invalid or expired, writes the new token pair to the
  user collection, and counts the outcomes of each sweep. It also has a start/stop lifecycle with
  one repeating timer and a manual trigger for a single user;
- the **user collection** (`UserService`), a table of user records keyed by `twitchId`;
- the **logger** (`ChronicleLogger`): level filtering, `setLevel`, the session-log line counter
  and its rotation at 10000 lines, ANSI colour stripping, line formatting, the colour choice for
  HTTP and guardian lines, and box padding;
- the **chat-command matcher** (`BotClient.onMessage`);
- the **OAuth routes** (`/twitch/callback`, `/logout`), the **route loader** (`RouteLoader`) and the
  **dashboard route** (`requireAuth`, the page data, the `</head>` injection).

Modules follow the source files: `TokenRefresh` (token_refresh.dfy), `UserService`
(user_service.dfy), `Logger` (logger.dfy), `BotClient` (bot_client.dfy), `AuthRoutes`
(auth_routes.dfy), `RouteLoader` (route_loader.dfy) and `DashboardRoutes` (dashboard_routes.dfy).
Four helper modules support them. `Wrappers` holds `Option` and `Result`; a thrown `Error` is a
`Result.Err` carrying its message, because the coordinator classifies errors by substrings of the
message. `Text` holds the JavaScript string operations: `indexOf`, `includes`, `replace` with a
string pattern and its `$` patterns, `split`, `join`, `padEnd` and ASCII case mapping. `TwitchApi`
is the Twitch provider as an oracle of answers, and its failures carry the fixed messages of
src/services/TwitchAuthService.js. `Http` holds responses and the session object.

The coordinator is specified twice. First, functions over the provider's answers and the
collection's records (`RefreshSpec`, `Recover`, `CheckSpec`, `ManualSpec`, `Fold`, `SweepSpec`)
return the result, the new records and the requests issued. Second, the methods of the class
`TokenRefreshService` take the same steps one `await` at a time. Each method is proved to produce
exactly what its function describes, and the lemmas state the properties of those functions.

Four behaviours of the source are kept as written:

- `refreshThreshold` is never assigned, so `expiresIn < this.refreshThreshold` is always false. The
  field is `None` in the class. As a result, a token that validates is never refreshed
  (`UnsetThresholdNeverRefreshesValidToken`), and `getStatus` reports no threshold. The decision
  functions take the threshold as a parameter, so the stale path is still specified and proved
  (`StaleTokenRefreshedOnce`).
- `checkAllTokens` catches a failure to list the users and logs it, so a sweep never fails
  (`SweepOutcome.ListingFailed`).
- The refresh on the stale path runs inside the same `try` as the validation, so its failure is
  classified again by the `catch`: an "ungültig"/"abgelaufen" message would trigger a second
  refresh (`Recover`, `StaleRefreshErrorRethrown`). Twitch's refresh failure message contains
  neither word (`RefreshFailureIsNotInvalidToken`), so with the real transport it is rethrown
  unchanged.
- `stop` clears the timer but leaves `intervalId` as it was.

## Model

| member | source | states |
|---|---|---|
| `TwitchApi.ValidateToken` | src/services/TwitchAuthService.js:93-108 | validation fails exactly when the provider rejects the token, always with the message "Token ist ungültig oder abgelaufen." |
| `TwitchApi.RefreshAccessToken` | src/services/TwitchAuthService.js:110-130 | a refresh fails exactly when the provider rejects it, always with "Token-Erneuerung fehlgeschlagen." |
| `TwitchApi.ExchangeCodeForToken` | src/services/TwitchAuthService.js:36-62 | a code exchange fails exactly when the provider rejects it, with "Token-Austausch fehlgeschlagen." |
| `TwitchApi.GetUserInfo` | src/services/TwitchAuthService.js:64-91 | the user lookup fails exactly when the provider gives no user, with "Abrufen der Benutzerinformationen fehlgeschlagen." |
| `UserService.SaveResult` | src/database/service/UserService.js:19-42 | an upsert result carries the given id, username, tokens and scope and the login time, and keeps `createdAt` of an existing record; it fails iff the store is down or a required path is empty |
| `UserService.TokensResult` | src/database/service/UserService.js:62-85 | a token update succeeds only for a present key and returns that record with only the two tokens and `updatedAt` replaced; an absent key gives "Benutzer mit ID … nicht gefunden." (no upsert) |
| `UserService.TokensResultKeepsProfile` | src/database/service/UserService.js:62-79 | after a token update, id, username, scope, lastLogin and createdAt are those of the stored record |
| `UserService.UserStore.SaveOrUpdateUser` | src/database/service/UserService.js:19-42 | after the upsert exactly one record has that id, it is the returned record, and no other record changes; a failure changes nothing |
| `UserService.UserStore.FindByTwitchId` | src/database/service/UserService.js:44-51 | returns the record stored under the id, or none iff the id is absent; a store failure is rethrown |
| `UserService.UserStore.GetAllUsers` | src/database/service/UserService.js:53-60 | returns every stored record exactly once, in collection order, with distinct ids |
| `UserService.UserStore.UpdateUserTokens` | src/database/service/UserService.js:62-85 | the collection afterwards holds the result of `TokensResult` under the id on success and is unchanged on failure; nothing is ever inserted |
| `UserService.UserStore.DeleteUser` | src/database/service/UserService.js:87-101 | returns true iff a record with the id existed; afterwards the key is absent and the other records are untouched |
| `UserService.UserStore.CountUsers` | src/database/service/UserService.js:107-114 | returns the number of stored records |
| `UserService.UserStore.KeysAreOrder` | src/database/service/UserService.js:4-11 | the unique `twitchId` index: the stored keys are exactly the ids of the collection order, each once |
| `TokenRefresh.RefreshSpec` | src/services/TokenRefreshService.js:120-140 | a refresh asks the provider once with the stored refresh token; when it answers, the only write is `WriteTokens` under `user.twitchId` with its access token and its refresh token if truthy, else the old one; a provider failure writes nothing and gives "Token-Erneuerung fehlgeschlagen."; only that record can change |
| `TokenRefresh.Recover` | src/services/TokenRefreshService.js:103-117 | an error naming an invalid or expired token does exactly the requests and writes of one `RefreshSpec` and gives `{valid:false, refreshed:true}` when it succeeds and the refresh's own error when it fails; any other error is rethrown unchanged with no call |
| `TokenRefresh.CheckSpec` | src/services/TokenRefreshService.js:86-118 | the outcome is `{valid:true, refreshed:false}` with no write and only the validation request, or `{valid:false, refreshed:true}`, or an error with no write; validation is always the first request |
| `TokenRefresh.RenewedMeansWritten` | src/services/TokenRefreshService.js:86-118 | `{valid:false, refreshed:true}` only after the provider answered the refresh and the new pair was written: the stored record holds the new access token and the provider's refresh token or the old one, with `updatedAt` = now |
| `TokenRefresh.ManualSpec` | src/services/TokenRefreshService.js:142-156 | a store outage or an absent id fails before any provider request, the absent id with "Benutzer mit ID … nicht gefunden."; any request made starts with the stored record's validation; success means the id is stored and the result is kept or renewed; no record is added or removed |
| `TokenRefresh.Fold` | src/services/TokenRefreshService.js:61-74 | the loop over the listed users never adds or removes a record |
| `TokenRefresh.Tick` | src/services/TokenRefreshService.js:65-73 | an error adds one to `errors` only; `refreshed` counts a renewal and `valid` a kept token, each by one, leaving the other counters; one result adds at most one to the total |
| `TokenRefresh.SweepSpec` | src/services/TokenRefreshService.js:44-84 | a listing failure is reported and swallowed with no request; an empty list makes no per-user call |
| `TokenRefresh.ValidationFailureIsInvalidToken` | src/services/TokenRefreshService.js:104 | the provider's validation failure message is always classified as an invalid token |
| `TokenRefresh.RefreshFailureIsNotInvalidToken` | src/services/TokenRefreshService.js:104 | the provider's refresh failure message is never classified as an invalid token |
| `TokenRefresh.UnsetThresholdNeverRefreshesValidToken` | src/services/TokenRefreshService.js:88-101 | with the threshold undefined, a successful validation always gives `{valid:true, refreshed:false}` with no refresh and no write |
| `TokenRefresh.FreshTokenKept` | src/services/TokenRefreshService.js:93-101 | a token that validates with at least the threshold left is kept, with no write |
| `TokenRefresh.StaleTokenRefreshedOnce` | src/services/TokenRefreshService.js:93-98 | a stale token gets exactly one refresh and one write of the new pair, and the result `{valid:false, refreshed:true}` |
| `TokenRefresh.InvalidTokenRefreshed` | src/services/TokenRefreshService.js:103-109 | a rejected token gets exactly one refresh and one write, and the result `{valid:false, refreshed:true}` |
| `TokenRefresh.FailedRefreshRethrown` | src/services/TokenRefreshService.js:107-113 | when the refresh after a rejected token fails, its own error is rethrown unchanged and the store is untouched |
| `TokenRefresh.StoreWriteFailureRethrown` | src/services/TokenRefreshService.js:103-113 | when the token write after a successful refresh fails, its error is rethrown, the store is unchanged, and the requests were the validation, the refresh and that one write |
| `TokenRefresh.StaleRefreshErrorRethrown` | src/services/TokenRefreshService.js:93-116 | a failed stale-path refresh whose message names no invalid token is rethrown with no second refresh |
| `TokenRefresh.RefreshRoundTrip` | src/services/TokenRefreshService.js:124-130 | after a refresh the stored record has the new access token, the provider's refresh token if truthy and the old one otherwise, and the same `twitchId`, `username`, `scope`, `lastLogin` and `createdAt` |
| `TokenRefresh.ManualUnknownUser` | src/services/TokenRefreshService.js:142-148 | a manual refresh for an absent id fails with a "nicht gefunden" message before any provider request |
| `TokenRefresh.ManualDelegates` | src/services/TokenRefreshService.js:142-150 | a manual refresh for a stored id gives exactly what the per-user decision gives for that record |
| `TokenRefresh.FoldCountsEveryUser` | src/services/TokenRefreshService.js:57-74 | valid + refreshed + errors equals the number of listed users |
| `TokenRefresh.FoldValidatesEveryUser` | src/services/TokenRefreshService.js:61-63 | every listed user's token is validated, and the first request is the first user's validation |
| `TokenRefresh.FoldValidatesInOrder` | src/services/TokenRefreshService.js:61-63 | the validation requests of a sweep are the listed users' access tokens, one per user, in list order |
| `TokenRefresh.FoldIsIndependent` | src/services/TokenRefreshService.js:61-74 | the counters equal those of each user checked alone against the starting store: earlier refreshes never change a later outcome |
| `TokenRefresh.TallyOfTotal` | src/services/TokenRefreshService.js:65-73 | every result is counted in exactly one counter |
| `TokenRefresh.TallyOfZeroes` | src/services/TokenRefreshService.js:65-73 | each counter is zero iff no result of its kind occurs |
| `TokenRefresh.TallyCounts` | src/services/TokenRefreshService.js:65-73 | `refreshed` is the number of renewals, `valid` the number of kept tokens and `errors` the rest, whatever their order |
| `TokenRefresh.FoldCounts` | src/services/TokenRefreshService.js:57-74 | after a sweep, `refreshed`, `valid` and `errors` are the numbers of users renewed, kept and failed when each is checked against the starting store |
| `TokenRefresh.TokenRefreshService.constructor` | src/services/TokenRefreshService.js:6-10 | a new service is stopped, has no timer, a 30·60·1000 ms interval and an undefined threshold |
| `TokenRefresh.TokenRefreshService.GetStatus` | src/services/TokenRefreshService.js:158-164 | reports the running flag and the interval in minutes, and no threshold when none is set |
| `TokenRefresh.TokenRefreshService.Start` | src/services/TokenRefreshService.js:12-28 | while running it changes nothing; otherwise it sets the interval to m·60000, runs, starts one sweep and arms exactly one timer; status then reports m minutes |
| `TokenRefresh.TokenRefreshService.Stop` | src/services/TokenRefreshService.js:30-39 | afterwards the service is stopped with no armed timer; `intervalId` and `checkInterval` are unchanged; stopped already, it is a no-op |
| `TokenRefresh.TokenRefreshService.TimerFires` | src/services/TokenRefreshService.js:25-27 | a sweep starts only when the timer is still armed, and then the service is running |
| `TokenRefresh.TokenRefreshService.RefreshUserToken` | src/services/TokenRefreshService.js:120-140 | produces exactly the result, records and requests of `RefreshSpec` |
| `TokenRefresh.TokenRefreshService.CheckAndRefreshToken` | src/services/TokenRefreshService.js:86-118 | produces exactly the result, records and requests of `CheckSpec` with the service's threshold |
| `TokenRefresh.TokenRefreshService.RecoverFrom` | src/services/TokenRefreshService.js:103-117 | produces exactly the result, records and requests of `Recover` |
| `TokenRefresh.TokenRefreshService.CheckAllTokens` | src/services/TokenRefreshService.js:44-84 | produces exactly the outcome, records and requests of `SweepSpec` over the stored listing, and never fails |
| `TokenRefresh.TokenRefreshService.CheckEach` | src/services/TokenRefreshService.js:57-74 | the loop yields exactly the counters, records and requests of `Fold` |
| `TokenRefresh.TokenRefreshService.CheckNext` | src/services/TokenRefreshService.js:62-73 | one turn of the loop extends `Fold` by the next user |
| `TokenRefresh.TokenRefreshService.RefreshTokenForUser` | src/services/TokenRefreshService.js:142-156 | produces exactly the result, records and requests of `ManualSpec` |
| `Logger.StripOnce` | src/utils/logger.js:125 | the single left-to-right removal pass never lengthens the text |
| `Logger.FormatStripsOnce` | src/utils/logger.js:125 | for escape-free parts, the single pass already removes every colour of a formatted line |
| `Logger.FormatMessage` | src/utils/logger.js:154-159 | a formatted line starts with gray, then `[file]` when a file name is given, and ends with ` | ` and the message |
| `Logger.StripOnceLeavesSequence` | src/utils/logger.js:125 | one pass can leave a colour sequence behind (see Findings) |
| `Logger.StripAnsi` | src/utils/logger.js:125 | the stripped text contains no `ESC [ [0-9;]* m` sequence, is no longer than the input, and a text without one is unchanged |
| `Logger.FormatStripsToPlain` | src/utils/logger.js:154-159 | for escape-free parts, stripping a formatted line gives the same line without colours |
| `Logger.LevelValue` | src/utils/logger.js:30-35 | the four named levels are 0 to 3 |
| `Logger.Emits` | src/utils/logger.js:161-163 | at DEBUG every level passes the filter; at ERROR none does, not even `error` |
| `Logger.Rank` | src/utils/logger.js:163 | a level ranks as its value unless it is unknown or ERROR (0 is falsy), which rank as INFO |
| `Logger.LevelFilter` | src/utils/logger.js:161-181 | debug, info and warn are emitted at their own level; error, ✓, server, user, twitch, guardian and http at INFO |
| `Logger.ErrorSuppressedBelowInfo` | src/utils/logger.js:161-175 | at WARN or ERROR, error messages are suppressed; at WARN, warnings still pass; at ERROR nothing passes |
| `Logger.HttpColor` | src/utils/logger.js:191-194 | green for 200–299, red for ≥ 400, blue otherwise |
| `Logger.HttpLine` | src/utils/logger.js:195 | the line starts with the request method and ends with ` → ` and the status |
| `Logger.HttpLineLayout` | src/utils/logger.js:195 | the method is padded with spaces to at least 6 columns, then a space and the URL |
| `Logger.GuardianColor` | src/utils/logger.js:183-187 | yellow for WARN, red for ERROR, cyan otherwise |
| `Logger.GuardianLine` | src/utils/logger.js:188 | the upper-cased type padded with spaces to at least 5 columns, then ` | ` and the message |
| `Logger.GuardianCaseInsensitive` | src/utils/logger.js:184-187 | for every type: yellow iff it lower-cases to `warn`, red iff to `error`, cyan otherwise; the colour of a type is that of its lower-cased form |
| `Logger.MaxLength` | src/utils/logger.js:255 | the widest line's length, at least every line's length, attained by some line |
| `Logger.FramedLine` | src/utils/logger.js:258 | a framed line is `│ `, the text, spaces up to the box width, ` │` |
| `Logger.BoxLines` | src/utils/logger.js:253-260 | a top border, one framed line per message line, and a bottom border, all as wide as the widest line plus the frame |
| `Logger.FileRecord` | src/utils/logger.js:125-128 | the record is the single-pass stripped line, then a newline and the formatted arguments when there are any, then a final newline |
| `Logger.RecordOfFormattedLine` | src/utils/logger.js:125-128 | for escape-free parts and any colour `log` is given, the record of a formatted line is the plain line, the arguments after a newline if any, and a final newline |
| `Logger.RotateSpec` | src/utils/logger.js:98-115 | below the limit nothing changes; at the limit the log is archived, and the new log is empty with counter 0, or when `info` passes the filter holds only the notice record with counter 1 |
| `Logger.WriteSpec` | src/utils/logger.js:123-134 | after a write and its rotation the counter is below the limit |
| `Logger.WriteCountsOneLine` | src/utils/logger.js:123-133 | below the limit, a write appends the stripped line, the args after a newline, a final newline, and adds exactly 1 to the counter |
| `Logger.WriteWithoutStream` | src/utils/logger.js:124 | without a stream a write changes nothing |
| `Logger.WriteLosesNothing` | src/utils/logger.js:98-134 | the archives and the log together hold everything written before, then this record, then the rotation notice if one was logged; at the limit the archived log ends with this record |
| `Logger.WriteRotates` | src/utils/logger.js:98-134 | a write that reaches the limit archives the old log with this record; the new log is empty with counter 0 when `info` is filtered, otherwise the notice record (the plain notice line for escape-free parts) with counter 1 |
| `Logger.InitialLineCount` | src/utils/logger.js:57-60 | the initial counter is the number of newlines in the existing log |
| `Logger.ChronicleLogger.constructor` | src/utils/logger.js:37-66 | the level starts at DEBUG, and the counter starts at the newline count of an existing log |
| `Logger.ChronicleLogger.SetLevel` | src/utils/logger.js:262-266 | the level changes only for a case-insensitively recognised name, to that level's value |
| `Logger.ChronicleLogger.Append` | src/utils/logger.js:128-132 | appends the record and adds one to the counter |
| `Logger.ChronicleLogger.RotateLog` | src/utils/logger.js:98-115 | the new state is exactly `RotateSpec` of the old one at the current level |
| `Logger.ChronicleLogger.WriteToFile` | src/utils/logger.js:123-134 | follows `WriteSpec` |
| `Logger.ChronicleLogger.Log` | src/utils/logger.js:161-172 | nothing changes unless the level passes the filter; otherwise the formatted line is written |
| `Logger.ChronicleLogger.Guardian` | src/utils/logger.js:183-189 | writes the padded type and message in the guardian colour, filtered as INFO |
| `Logger.ChronicleLogger.Http` | src/utils/logger.js:191-197 | writes the padded method, URL and status in the status colour, filtered as INFO |
| `BotClient.PingIsNoInsult` | src/client/BotClient.js:42-49 | no message is both `!ping` and contains the phrase |
| `BotClient.OnMessage` | src/client/BotClient.js:32-50 | no reply to the bot's own messages; `@user, Pong!` iff the lower-cased message is `!ping`; the "nicht nett" reply iff it contains `bot ist doof`; at most one reply, to the same channel, and none otherwise |
| `BotClient.MessageCaseInsensitive` | src/client/BotClient.js:42-49 | a message and its lower-cased form get the same replies |
| `BotClient.PingAnyCase` | src/client/BotClient.js:42-44 | every message that lower-cases to `!ping`, `!PiNG` for one, gets exactly the pong reply |
| `BotClient.InsultAnywhere` | src/client/BotClient.js:47-49 | any text that lower-cases to `bot ist doof`, placed anywhere in a message, gets exactly the "nicht nett" reply |
| `AuthRoutes.ErrorPageShowsMessage` | src/dashboard/routes/auth.js:60-67 | the error page shows the message of the failure |
| `AuthRoutes.ScopesToStore` | src/dashboard/routes/auth.js:25 | the token response's scope array when it is one, otherwise the query `scope` split on spaces, in both cases without empty strings; no query scope fails |
| `AuthRoutes.ScopesRoundTrip` | src/dashboard/routes/auth.js:25 | a space-joined list of non-empty scope names is read back as that list |
| `AuthRoutes.ScopesKeepOrder` | src/dashboard/routes/auth.js:25 | a scope array without empty entries is stored as it is; filtering keeps the array's order |
| `Text.FilterNonEmptyAppend` | src/dashboard/routes/auth.js:25 | `filter` keeps order: filtering two lists joined is filtering each, then joining |
| `AuthRoutes.LoginData` | src/dashboard/routes/auth.js:22-37 | exchange, scopes, then user info, first failure wins; the record has `twitchId` = id, `username` = login and exactly the exchanged access token; the refresh token is the exchanged one, or empty when the response has none |
| `AuthRoutes.MissingRefreshTokenRejected` | src/dashboard/routes/auth.js:22-40 | a login without a `refresh_token` is refused by the store's `required` check |
| `AuthRoutes.TwitchCallback` | src/dashboard/routes/auth.js:12-68 | no code: 400 with nothing changed; any failure before or during the save: 500 with the session untouched; otherwise the upserted record, with the id appended to the listing order when it is new, then the session id and name from it, then redirect or 500 for a session-save failure |
| `AuthRoutes.Logout` | src/dashboard/routes/auth.js:70-81 | destroys the session and redirects to `/`, or answers 500 and changes nothing |
| `RouteLoader.JsFiles` | src/handler/RouteLoader.js:19-20 | exactly the listed names ending in `.js`, each one `.js`, no more than listed |
| `RouteLoader.JsFilesAppend` | src/handler/RouteLoader.js:19-20 | the filter keeps listing order: the `.js` files of two listings joined are those of the first, then those of the second |
| `RouteLoader.RouteBase` | src/handler/RouteLoader.js:33 | the name without its `.js` suffix |
| `RouteLoader.RoutePath` | src/handler/RouteLoader.js:33-40 | `index.js` mounts at `/`, `name.js` at `/name` |
| `RouteLoader.RoutePathInjective` | src/handler/RouteLoader.js:33-41 | two route files other than a bare `.js` never share a mount path; `.js` and `index.js` both mount at `/` |
| `RouteLoader.BareJsSharesRoot` | src/handler/RouteLoader.js:33-39 | the bare file `.js` has the empty base name and mounts at `/`, the same path as `index.js` |
| `RouteLoader.MountOf` | src/handler/RouteLoader.js:30-45 | a file that loads adds one mount at its path; one that throws adds none |
| `RouteLoader.FailedLoadSkipped` | src/handler/RouteLoader.js:30-45 | a failing file is skipped, and the files after it are still mounted |
| `RouteLoader.MountsFromFiles` | src/handler/RouteLoader.js:27-45 | every mount comes from a listed file that loaded |
| `RouteLoader.Loader.constructor` | src/handler/RouteLoader.js:7-11 | a missing directory or no `.js` file mounts nothing; otherwise the mounts of the files in order and the count of all `.js` files |
| `RouteLoader.Loader.LoadRoutes` | src/handler/RouteLoader.js:13-49 | appends the mounts of the `.js` files in listing order and reports their number, failed ones included |
| `RouteLoader.Loader.MountAll` | src/handler/RouteLoader.js:27-46 | the loop appends exactly the mounts of the files that load, in order |
| `DashboardRoutes.RequireAuth` | src/dashboard/routes/dashboard.js:7-13 | passes iff there is a session with a `userId`; otherwise redirects to `/` |
| `DashboardRoutes.Data` | src/dashboard/routes/dashboard.js:16-20 | username falls back to `Unbekannt`; displayName to the session name, then username, then `Benutzer` |
| `DashboardRoutes.Inject` | src/dashboard/routes/dashboard.js:30-33 | HTML without `</head>` is returned unchanged |
| `DashboardRoutes.InjectFirstOnly` | src/dashboard/routes/dashboard.js:30-33 | the script lands right before the first `</head>`; all other text, later `</head>`s included, is unchanged, for data without `$` (a `$&` is `DollarPatternExpands`) |
| `DashboardRoutes.DollarPatternExpands` | src/dashboard/routes/dashboard.js:30-33 | a `$&` in the serialised data is expanded by `replace` into the matched `</head>` |
| `DashboardRoutes.Dashboard` | src/dashboard/routes/dashboard.js:15-37 | unauthenticated: redirect; read error: 500 and no page; otherwise the page with the data injected |
| `DashboardRoutes.DashboardAfterLogin` | src/dashboard/routes/dashboard.js:7-20 | the session a login leaves opens the dashboard and shows the user name as display name; an empty session is redirected |

## Left out

- Timers: `setInterval`/`clearInterval` are represented by a ghost set of armed timer handles and a ghost count of sweeps started. The sweep that `start` and each timer tick launch is counted, not executed, because it runs detached from the caller.
- Asynchronous interleaving: every `await` runs to completion in order. The race between a manual refresh and a scheduled sweep for the same user is therefore not modelled.
- Logging calls inside the coordinator, the collection and the routes are not modelled; the logger is modelled on its own.
- `hoursLeft.toFixed(2)` is not modelled. `getStatus` divides exactly, and the `NaN` of the undefined threshold is `None`.
- The HTTP transport: the axios calls, `getAuthURL` and its `URLSearchParams` encoding, the `/login` route (src/dashboard/routes/auth.js:7-10) and the environment checks. The provider is a table of answers.
- Mongoose: dates are integers passed in by the caller, and a database outage is one error message that every query raises. Only `required`, the unique `twitchId` and `timestamps` are modelled from the schema; other validation is not.
- `UserService.UserStore.GetAllUsers`: the order of an unsorted `find({})` is taken to be insertion order.
- Logger I/O: console output, file streams and `rename`, the caller's file name (src/utils/logger.js:73-92) and the clock are inputs. `session`, `trace`, `mtvBanner`, `banner` and `table` are not modelled. The wrappers `info`, `error`, `warn`, `debug`, `success`, `server`, `user` and `twitch` are covered through `Log` and `LevelFilter`.
- `Logger.ChronicleLogger.RotateLog`: `_rotateLog` is asynchronous and not awaited. The model runs it to completion right after the write, so a write racing with the rename is not captured.
- `Logger.BoxLines`: the lines are returned instead of printed. Lengths count characters, not UTF-16 code units.
- `AuthRoutes.LoginData`: an absent `refresh_token` in the token response is stored as the empty string, so the upsert fails its `required` check and the callback answers 500 (`AuthRoutes.MissingRefreshTokenRejected`). Depending on its version, Mongoose either drops an `undefined` field from the update or sets it to null; the model takes the rejecting reading. The authorization-code flow always returns a refresh token, so the case does not arise with Twitch.
- `util.format` of the extra arguments is an input string.
- `JSON.stringify` in the dashboard route is an opaque serialiser. Reading `dashboard.html` is an input, either its text or an error.
- `Text.ToLower` and `Text.ToUpper` cover ASCII letters only. `padEnd` counts characters, not UTF-16 code units.
- The tmi.js client: its construction, `connect` and the console line in `onMessage`.
- `require` of a route file is a parameter: it returns a router identity or throws.
- `RouteLoader.getRouter` only returns the field, so it is not modelled.

## Findings

| source | as written | input that shows it | evidently intended | confidence | as-written member | corrected member |
|---|---|---|---|---|---|---|
| src/utils/logger.js:125 | one global `replace` pass removes each `ESC [ [0-9;]* m` match and resumes after it, so removing an inner match can join an escape before it to the text after it | the characters ESC, ESC, `[`, `m`, `[`, `m` leave ESC, `[`, `m` | the written log line contains no colour sequence | low; not executed | `Logger.StripOnceLeavesSequence` | `Logger.StripAnsi` |

The file write (`Logger.FileRecord`) keeps the single pass as written. On every line the logger
formats from escape-free parts, the pass and the corrected `Logger.StripAnsi` give the same plain
line (`Logger.FormatStripsOnce`, `Logger.FormatStripsToPlain`), so the difference shows only when a
message or file name carries escape characters itself.
