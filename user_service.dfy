/** The user collection behind `UserService` (src/database/service/UserService.js): records keyed by
    `twitchId`, kept in insertion order (the order an unsorted `find({})` returns them in). Times
    (`lastLogin`, `createdAt`, `updatedAt`) are clock readings passed in by the caller. */
module UserService {
  import opened Wrappers

  /** A stored document of `UserSchema`. */
  datatype User = User(
    twitchId: string,
    username: string,
    accessToken: string,
    refreshToken: string,
    scope: seq<string>,
    lastLogin: int,
    createdAt: int,
    updatedAt: int)

  /** The fields `saveOrUpdateUser` takes from its argument. */
  datatype UserData = UserData(twitchId: string, username: string, accessToken: string, refreshToken: string, scope: seq<string>)

  /** The `required: true` string paths written by the updates hold a value; Mongoose's required
      validator rejects the empty string. */
  predicate HasRequiredFields(u: User) {
    u.username != "" && u.accessToken != "" && u.refreshToken != ""
  }

  function RequiredMessage(path: string): string {
    "Validation failed: " + path + ": Path `" + path + "` is required."
  }

  function NotFoundMessage(twitchId: string): string {
    "Benutzer mit ID " + twitchId + " nicht gefunden."
  }

  /** The first required path an update would leave empty, in schema order. */
  function MissingPath(username: string, accessToken: string, refreshToken: string): Option<string> {
    if username == "" then Some("username")
    else if accessToken == "" then Some("accessToken")
    else if refreshToken == "" then Some("refreshToken")
    else None
  }

  /** Every record sits under its own `twitchId`. */
  predicate Keyed(users: map<string, User>) {
    forall id :: id in users ==> users[id].twitchId == id
  }

  /** What `saveOrUpdateUser` returns (the upsert with `new: true`, `runValidators: true`). */
  function SaveResult(users: map<string, User>, outage: Option<string>, d: UserData, now: int): (r: Result<User>)
    requires Keyed(users)
    ensures r.Ok? ==> r.value.twitchId == d.twitchId && HasRequiredFields(r.value)
    ensures r.Ok? ==> (r.value.username == d.username && r.value.accessToken == d.accessToken
      && r.value.refreshToken == d.refreshToken && r.value.scope == d.scope && r.value.lastLogin == now)
    ensures r.Ok? && d.twitchId in users ==> r.value.createdAt == users[d.twitchId].createdAt
    ensures r.Err? <==> outage.Some? || MissingPath(d.username, d.accessToken, d.refreshToken).Some?
  {
    if outage.Some? then Err(outage.value)
    else match MissingPath(d.username, d.accessToken, d.refreshToken)
      case Some(p) => Err(RequiredMessage(p))
      case None =>
        if d.twitchId in users then
          Ok(users[d.twitchId].(username := d.username, accessToken := d.accessToken, refreshToken := d.refreshToken,
                                 scope := d.scope, lastLogin := now, updatedAt := now))
        else
          Ok(User(d.twitchId, d.username, d.accessToken, d.refreshToken, d.scope, now, now, now))
  }

  /** What `updateUserTokens` returns: no upsert, so an absent key is an error. */
  function TokensResult(users: map<string, User>, outage: Option<string>, twitchId: string,
                        accessToken: string, refreshToken: string, now: int): (r: Result<User>)
    ensures r.Ok? ==> twitchId in users
    ensures r.Ok? ==> r.value == users[twitchId].(accessToken := accessToken, refreshToken := refreshToken, updatedAt := now)
    ensures outage.None? && twitchId !in users && accessToken != "" && refreshToken != ""
      ==> r == Err(NotFoundMessage(twitchId))
    ensures r.Err? <==> outage.Some? || twitchId !in users || accessToken == "" || refreshToken == ""
  {
    if outage.Some? then Err(outage.value)
    else if accessToken == "" then Err(RequiredMessage("accessToken"))
    else if refreshToken == "" then Err(RequiredMessage("refreshToken"))
    else if twitchId !in users then Err(NotFoundMessage(twitchId))
    else Ok(users[twitchId].(accessToken := accessToken, refreshToken := refreshToken, updatedAt := now))
  }

  /** Only the token pair and `updatedAt` differ after a token update. */
  lemma TokensResultKeepsProfile(users: map<string, User>, twitchId: string, accessToken: string, refreshToken: string, now: int)
    requires TokensResult(users, None, twitchId, accessToken, refreshToken, now).Ok?
    ensures var u := TokensResult(users, None, twitchId, accessToken, refreshToken, now).value;
      var was := users[twitchId];
      u.twitchId == was.twitchId && u.username == was.username && u.scope == was.scope
      && u.lastLogin == was.lastLogin && u.createdAt == was.createdAt
      && u.accessToken == accessToken && u.refreshToken == refreshToken
  {
  }

  predicate Distinct(s: seq<string>) {
    forall i, j :: 0 <= i < j < |s| ==> s[i] != s[j]
  }

  /** `s` without the element `x`. */
  function Remove(s: seq<string>, x: string): (r: seq<string>)
    ensures forall y :: y in r <==> y in s && y != x
    ensures Distinct(s) ==> Distinct(r)
    ensures x !in s ==> r == s
    decreases |s|
  {
    if |s| == 0 then []
    else if s[0] == x then Remove(s[1..], x)
    else
      var rest := Remove(s[1..], x);
      assert Distinct(s) ==> s[0] !in s[1..];
      [s[0]] + rest
  }

  function Elements(s: seq<string>): set<string> {
    set x | x in s
  }

  /** A sequence without repeats has as many elements as its set. */
  lemma {:induction false} DistinctSize(s: seq<string>)
    requires Distinct(s)
    ensures |Elements(s)| == |s|
    decreases |s|
  {
    if |s| > 0 {
      assert Distinct(s[1..]);
      DistinctSize(s[1..]);
      assert Elements(s) == {s[0]} + Elements(s[1..]);
      assert s[0] !in Elements(s[1..]);
    }
  }

  /** The collection. `outage` is the error every query raises while the database cannot be reached
      (`None` while it can); the connection itself is not part of this model. */
  class UserStore {
    var users: map<string, User>
    var order: seq<string>
    var outage: Option<string>

    /** The unique index on `twitchId` and the schema's required paths; `order` lists each key once. */
    ghost predicate Valid()
      reads this
    {
      && Keyed(users)
      && (forall id :: id in users ==> HasRequiredFields(users[id]))
      && Distinct(order)
      && (forall id :: id in order <==> id in users)
    }

    /** The records in collection order. */
    function Listing(): (r: seq<User>)
      reads this
      requires Valid()
      ensures |r| == |order| && forall i :: 0 <= i < |order| ==> r[i] == users[order[i]]
    {
      var u, o := users, order;
      seq(|o|, i requires 0 <= i < |o| && o[i] in u => u[o[i]])
    }

    constructor ()
      ensures Valid() && users == map[] && order == [] && outage == None
    {
      users, order, outage := map[], [], None;
    }

    /** `saveOrUpdateUser`: an upsert keyed by `twitchId`. */
    method SaveOrUpdateUser(d: UserData, now: int) returns (r: Result<User>)
      requires Valid()
      modifies this
      ensures Valid() && outage == old(outage)
      ensures r == SaveResult(old(users), outage, d, now)
      ensures r.Ok? ==> users == old(users)[d.twitchId := r.value]
      ensures r.Err? ==> users == old(users) && order == old(order)
      ensures r.Ok? ==> order == if d.twitchId in old(users) then old(order) else old(order) + [d.twitchId]
    {
      r := SaveResult(users, outage, d, now);
      if r.Ok? {
        if d.twitchId !in users {
          order := order + [d.twitchId];
        }
        users := users[d.twitchId := r.value];
      }
    }

    /** `findByTwitchId`: the record with that key, or `None` (`null`). */
    method FindByTwitchId(twitchId: string) returns (r: Result<Option<User>>)
      requires Valid()
      ensures r.Err? <==> outage.Some?
      ensures r.Err? ==> r.message == outage.value
      ensures r.Ok? ==> (r.value.Some? <==> twitchId in users)
      ensures r.Ok? && r.value.Some? ==> r.value.value == users[twitchId] && r.value.value.twitchId == twitchId
    {
      if outage.Some? {
        return Err(outage.value);
      }
      r := Ok(if twitchId in users then Some(users[twitchId]) else None);
    }

    /** `getAllUsers`: every stored record exactly once, in collection order. */
    method GetAllUsers() returns (r: Result<seq<User>>)
      requires Valid()
      ensures r.Err? <==> outage.Some?
      ensures r.Err? ==> r.message == outage.value
      ensures r.Ok? ==> r.value == Listing()
      ensures r.Ok? ==> |r.value| == |users|
      ensures r.Ok? ==> forall id :: id in users ==> users[id] in r.value
      ensures r.Ok? ==> forall i, j :: 0 <= i < j < |r.value| ==> r.value[i].twitchId != r.value[j].twitchId
    {
      if outage.Some? {
        return Err(outage.value);
      }
      KeysAreOrder();
      var all := Listing();
      forall id | id in users
        ensures users[id] in all
      {
        var i :| 0 <= i < |order| && order[i] == id;
        assert all[i] == users[id];
      }
      r := Ok(all);
    }

    /** `updateUserTokens`: replaces the token pair of an existing record; never inserts. */
    method UpdateUserTokens(twitchId: string, accessToken: string, refreshToken: string, now: int) returns (r: Result<User>)
      requires Valid()
      modifies this
      ensures Valid() && outage == old(outage) && order == old(order)
      ensures r == TokensResult(old(users), outage, twitchId, accessToken, refreshToken, now)
      ensures users == if r.Ok? then old(users)[twitchId := r.value] else old(users)
    {
      r := TokensResult(users, outage, twitchId, accessToken, refreshToken, now);
      if r.Ok? {
        users := users[twitchId := r.value];
      }
    }

    /** `deleteUser`: `true` iff a record with that key existed; it is gone afterwards. */
    method DeleteUser(twitchId: string) returns (r: Result<bool>)
      requires Valid()
      modifies this
      ensures Valid() && outage == old(outage)
      ensures old(outage).Some? ==> r == Err(old(outage).value) && users == old(users) && order == old(order)
      ensures old(outage).None? ==> r == Ok(twitchId in old(users))
      ensures old(outage).None? ==> users == old(users) - {twitchId} && order == Remove(old(order), twitchId)
    {
      if outage.Some? {
        return Err(outage.value);
      }
      r := Ok(twitchId in users);
      users := users - {twitchId};
      order := Remove(order, twitchId);
    }

    /** `countUsers`: the number of stored records. */
    method CountUsers() returns (r: Result<nat>)
      requires Valid()
      ensures r.Err? <==> outage.Some?
      ensures r.Ok? ==> r.value == |users| && r.value == |order|
    {
      if outage.Some? {
        return Err(outage.value);
      }
      KeysAreOrder();
      r := Ok(|users|);
    }

    /** The keys are the elements of `order`, so there are as many records as entries in `order`. */
    lemma KeysAreOrder()
      requires Valid()
      ensures users.Keys == Elements(order) && |users| == |order|
    {
      assert users.Keys == Elements(order);
      DistinctSize(order);
    }
  }
}
