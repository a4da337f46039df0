/**
 * The decisions of internal/delivery/http/user_handler.go: which checks
 * answer before the use case is called, which call is made with which
 * arguments, and which status each error of the call becomes. The use
 * case is a parameter answering the error of a call (None on success). A
 * request body that json.Decode rejects is None.
 */
module UserHandlers {
  import opened Wrappers
  import opened Errors
  import opened Entity
  import opened HttpHelpers
  import opened Auth
  import Store
  import opened Cache
  import opened Wiring
  import opened UserFlows

  /** The use-case calls the user handlers make. */
  datatype UserCall =
    | CreateUserCall(username: string, email: string, displayName: string)
    | GetUserWithStatsCall(id: int)
    | UpdateUserCall(id: int, displayName: string, bio: string, profileImage: string)
    | FollowUserCall(followerId: int, followingId: int)
    | UnfollowUserCall(followerId: int, followingId: int)
    | GetFollowersCall(id: int, limit: int, offset: int)
    | GetFollowingCall(id: int, limit: int, offset: int)

  /** The error a use-case call returns, None when it succeeds. */
  type UserService = UserCall -> Option<Err>

  datatype NewUserBody = NewUserBody(username: string, email: string, displayName: string)
  datatype ProfileBody = ProfileBody(displayName: string, bio: string, profileImage: string)
  datatype ActionBody = ActionBody(action: string)

  /** The errors CreateUser reports as the client's fault. */
  predicate IsUserValidationError(e: Err) {
    e == InvalidUsername || e == InvalidEmail || e == InvalidDisplayName
  }

  /** POST /api/u/new. */
  function CreateUser(body: Option<NewUserBody>, uc: UserService): (r: Response<UserCall>)
    ensures r.call.Some? <==> body.Some? && body.value.username != "" && body.value.email != ""
                               && body.value.displayName != ""
    ensures r.call.None? ==> r.status == StatusBadRequest
    ensures r.call.Some? ==> r.call.value == CreateUserCall(body.value.username, body.value.email, body.value.displayName)
    ensures r.call.Some? ==> (r.status == StatusCreated <==> uc(r.call.value).None?)
    ensures r.call.Some? ==> (r.status == StatusBadRequest <==>
                                uc(r.call.value).Some? && IsUserValidationError(uc(r.call.value).value))
    ensures r.status in {StatusCreated, StatusBadRequest, StatusInternalServerError}
  {
    match body
    case None => Response(StatusBadRequest, None)
    case Some(req) =>
      if req.username == "" || req.email == "" || req.displayName == "" then Response(StatusBadRequest, None)
      else
        var call := CreateUserCall(req.username, req.email, req.displayName);
        match uc(call)
        case None => Response(StatusCreated, Some(call))
        case Some(e) =>
          if IsUserValidationError(e) then Response(StatusBadRequest, Some(call))
          else Response(StatusInternalServerError, Some(call))
  }

  /** GET /api/u/{id}. */
  function GetUser(vars: PathVars, uc: UserService): (r: Response<UserCall>)
    ensures r.call.Some? <==> GetIDFromPath(vars, "id").Some?
    ensures r.call.None? ==> r.status == StatusBadRequest
    ensures r.call.Some? ==> r.call.value == GetUserWithStatsCall(GetIDFromPath(vars, "id").value)
    ensures r.call.Some? ==> (r.status == StatusOK <==> uc(r.call.value).None?)
    ensures r.call.Some? ==> (r.status == StatusNotFound <==> uc(r.call.value) == Some(UserNotFound))
    ensures r.status in {StatusOK, StatusBadRequest, StatusNotFound, StatusInternalServerError}
  {
    match GetIDFromPath(vars, "id")
    case None => Response(StatusBadRequest, None)
    case Some(id) =>
      var call := GetUserWithStatsCall(id);
      match uc(call)
      case None => Response(StatusOK, Some(call))
      case Some(e) =>
        if e == UserNotFound then Response(StatusNotFound, Some(call))
        else Response(StatusInternalServerError, Some(call))
  }

  /** POST /api/u/{id}/manage: only the user named by the token may change the profile. */
  function UpdateUser(ctx: Context, vars: PathVars, body: Option<ProfileBody>, uc: UserService)
    : (r: Response<UserCall>)
    ensures GetUserFromContext(ctx).None? ==> r == Response(StatusUnauthorized, None)
    ensures r.call.Some? <==> GetUserFromContext(ctx).Some? && GetIDFromPath(vars, "id").Some?
                               && GetUserFromContext(ctx).value.userId == GetIDFromPath(vars, "id").value
                               && body.Some?
    ensures GetUserFromContext(ctx).Some? && GetIDFromPath(vars, "id").Some?
            && GetUserFromContext(ctx).value.userId != GetIDFromPath(vars, "id").value
            ==> r == Response(StatusForbidden, None)
    ensures r.call.Some? ==> r.call.value == UpdateUserCall(GetUserFromContext(ctx).value.userId,
                                                             body.value.displayName, body.value.bio,
                                                             body.value.profileImage)
    ensures r.call.Some? ==> r.status == (if uc(r.call.value).None? then StatusOK else StatusInternalServerError)
  {
    match GetUserFromContext(ctx)
    case None => Response(StatusUnauthorized, None)
    case Some(claims) =>
      match GetIDFromPath(vars, "id")
      case None => Response(StatusBadRequest, None)
      case Some(userId) =>
        if claims.userId != userId then Response(StatusForbidden, None)
        else
          match body
          case None => Response(StatusBadRequest, None)
          case Some(req) =>
            var call := UpdateUserCall(userId, req.displayName, req.bio, req.profileImage);
            if uc(call).Some? then Response(StatusInternalServerError, Some(call))
            else Response(StatusOK, Some(call))
  }

  /** POST /api/u/{id} with {"action": "follow" | "unfollow"}: the token's user acts on the path's user. */
  function FollowUser(ctx: Context, vars: PathVars, body: Option<ActionBody>, uc: UserService)
    : (r: Response<UserCall>)
    ensures GetUserFromContext(ctx).None? ==> r == Response(StatusUnauthorized, None)
    ensures r.call.Some? <==> GetUserFromContext(ctx).Some? && GetIDFromPath(vars, "id").Some?
                               && body.Some? && body.value.action in {"follow", "unfollow"}
    ensures r.call.None? ==> r.status in {StatusUnauthorized, StatusBadRequest}
    ensures r.call.Some? && body.value.action == "follow" ==>
              r.call.value == FollowUserCall(GetUserFromContext(ctx).value.userId, GetIDFromPath(vars, "id").value)
    ensures r.call.Some? && body.value.action == "unfollow" ==>
              r.call.value == UnfollowUserCall(GetUserFromContext(ctx).value.userId, GetIDFromPath(vars, "id").value)
    ensures r.call.Some? ==> (r.status == StatusOK <==> uc(r.call.value).None?)
    ensures r.call.Some? ==> (r.status == StatusBadRequest <==> uc(r.call.value) == Some(CannotFollowSelf))
    ensures r.status in {StatusOK, StatusBadRequest, StatusUnauthorized, StatusInternalServerError}
  {
    match GetUserFromContext(ctx)
    case None => Response(StatusUnauthorized, None)
    case Some(claims) =>
      match GetIDFromPath(vars, "id")
      case None => Response(StatusBadRequest, None)
      case Some(userId) =>
        match body
        case None => Response(StatusBadRequest, None)
        case Some(req) =>
          if req.action != "follow" && req.action != "unfollow" then Response(StatusBadRequest, None)
          else
            var call :=
              if req.action == "follow" then FollowUserCall(claims.userId, userId)
              else UnfollowUserCall(claims.userId, userId);
            match uc(call)
            case None => Response(StatusOK, Some(call))
            case Some(e) =>
              if e == CannotFollowSelf then Response(StatusBadRequest, Some(call))
              else Response(StatusInternalServerError, Some(call))
  }

  /** GET /api/u/{id}/follows and GET /api/u/{id}/following: a page of either list. */
  function ListUsers(vars: PathVars, limitStr: string, offsetStr: string, followers: bool, uc: UserService)
    : (r: Response<UserCall>)
    ensures r.call.Some? <==> GetIDFromPath(vars, "id").Some?
    ensures r.call.None? ==> r.status == StatusBadRequest
    ensures r.call.Some? ==> var p := GetPaginationParams(limitStr, offsetStr);
      r.call.value == (if followers then GetFollowersCall(GetIDFromPath(vars, "id").value, p.0, p.1)
                       else GetFollowingCall(GetIDFromPath(vars, "id").value, p.0, p.1))
    ensures r.call.Some? ==> r.status == (if uc(r.call.value).None? then StatusOK else StatusInternalServerError)
  {
    match GetIDFromPath(vars, "id")
    case None => Response(StatusBadRequest, None)
    case Some(userId) =>
      var (limit, offset) := GetPaginationParams(limitStr, offsetStr);
      var call := if followers then GetFollowersCall(userId, limit, offset) else GetFollowingCall(userId, limit, offset);
      if uc(call).Some? then Response(StatusInternalServerError, Some(call))
      else Response(StatusOK, Some(call))
  }

  /** Every call a list handler makes asks for at most 100 rows from a non-negative offset. */
  lemma ListUsersBounded(vars: PathVars, limitStr: string, offsetStr: string, followers: bool, uc: UserService)
    requires ListUsers(vars, limitStr, offsetStr, followers, uc).call.Some?
    ensures var c := ListUsers(vars, limitStr, offsetStr, followers, uc).call.value;
      1 <= c.limit <= MaxLimit && 0 <= c.offset
  {
  }

  // -------------------------------------------- against the use cases

  /** The error each call returns when served by the use cases of UserFlows from the World w. */
  function Outcome(w: World, now: int, sign: Signer, c: UserCall): Option<Err> {
    match c
    case CreateUserCall(u, e, d) => CreateUserSpec(w, u, e, d, now, sign).1.err
    case GetUserWithStatsCall(id) => GetUserWithStatsSpec(w, id).1.err
    case UpdateUserCall(id, d, b, p) =>
      var r := UpdateUserSpec(w, id, d, b, p, now).1;
      if r.Ok? then None else Some(r.error)
    case FollowUserCall(a, b) => FollowUserSpec(w, a, b, now).1
    case UnfollowUserCall(a, b) => UnfollowUserSpec(w, a, b).1
    case GetFollowersCall(id, l, o) =>
      var r := Store.SelectFollowers(w.db, id, l, o);
      if r.Ok? then None else Some(r.error)
    case GetFollowingCall(id, l, o) =>
      var r := Store.SelectFollowing(w.db, id, l, o);
      if r.Ok? then None else Some(r.error)
  }

  function Served(w: World, now: int, sign: Signer): UserService {
    (c: UserCall) => Outcome(w, now, sign, c)
  }

  /**
   * The handler's own emptiness check is the use case's whole validation,
   * so behind it CreateUser never answers 400 after calling.
   */
  lemma CreateUserValidationUnreachable(body: Option<NewUserBody>, w: World, now: int, sign: Signer)
    ensures var r := CreateUser(body, Served(w, now, sign));
      r.status == StatusBadRequest ==> r.call.None?
  {
    var r := CreateUser(body, Served(w, now, sign));
    if r.call.Some? {
      var req := body.value;
      assert ValidateUser(NewUserRecord(req.username, req.email, req.displayName, now)).None?;
    }
  }

  /** A username or email already taken is answered 500, not as a client error, and nothing is written. */
  lemma DuplicateUserIs500(body: NewUserBody, w: World, now: int, sign: Signer)
    requires w.db.online && body.username != "" && body.email != "" && body.displayName != ""
    requires Store.Taken(w.db, Store.UserAsStored(NewUserRecord(body.username, body.email, body.displayName, now)))
    ensures CreateUser(Some(body), Served(w, now, sign)).status == StatusInternalServerError
    ensures CreateUserSpec(w, body.username, body.email, body.displayName, now, sign).0 == w
  {
    var u := NewUserRecord(body.username, body.email, body.displayName, now);
    assert Store.InsertUser(w.db, u).1 == Fail(StoreError(if Store.UserFits(u) then UniqueViolation else ValueTooLong));
  }

  /** A user found in the cache while the store is down: the stats fail, and the whole request is 500. */
  lemma StatsFailureIs500(vars: PathVars, w: World, now: int, sign: Signer)
    requires GetIDFromPath(vars, "id").Some?
    requires LookupUser(w.cache, GetIDFromPath(vars, "id").value).Ok?
    requires !w.db.online
    ensures GetUser(vars, Served(w, now, sign)).status == StatusInternalServerError
    ensures GetUserWithStatsSpec(w, GetIDFromPath(vars, "id").value).1.user.Some?
  {
  }

  /** Behind AuthMiddleware, the handlers that need a user never answer 401. */
  lemma AuthenticatedUserHandlers(header: string, validate: Validator, ctx: Context, vars: PathVars,
                                  profile: Option<ProfileBody>, action: Option<ActionBody>, uc: UserService)
    requires AuthMiddleware(header, validate, ctx).Next?
    ensures UpdateUser(AuthMiddleware(header, validate, ctx).ctx, vars, profile, uc).status != StatusUnauthorized
    ensures FollowUser(AuthMiddleware(header, validate, ctx).ctx, vars, action, uc).status != StatusUnauthorized
  {
    AuthThenContext(header, validate, ctx);
  }
}
