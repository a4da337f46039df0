/**
 * The user use cases of internal/usecase/user_usecase.go. Each operation is
 * first given as a function from the World before the call (tables and
 * cache) to the World after it and the Go-level result; the methods of
 * class UserUseCase carry out the same steps on the repository and the
 * cache adapter and are proved to have exactly that effect. Errors of the
 * cache are ignored, as in the Go code. GenerateToken is the parameter
 * sign, which may fail; time.Now and SQL NOW() are the parameter now.
 */
module UserFlows {
  import opened Wrappers
  import opened Errors
  import opened Entity
  import Store
  import opened Cache
  import opened Wiring
  import opened Database

  /** auth.GenerateToken(id, username, email): a token, or None when signing fails. */
  type Signer = (int, string, string) -> Option<string>

  /** The three results of CreateUser: the stored user, the token, the error. */
  datatype Registration = Registration(user: Option<UserRecord>, token: string, err: Option<Err>)

  /** The three results of GetUserWithStats. */
  datatype Profile = Profile(user: Option<UserRecord>, stats: Option<UserStats>, err: Option<Err>)

  /** What entity.NewUser builds. */
  function NewUserRecord(username: string, email: string, displayName: string, now: int): UserRecord {
    UserRecord(0, username, email, displayName, "", "", now, now)
  }

  function CreateUserSpec(w: World, username: string, email: string, displayName: string, now: int, sign: Signer)
    : (World, Registration)
  {
    var u := NewUserRecord(username, email, displayName, now);
    if ValidateUser(u).Some? then (w, Registration(None, "", ValidateUser(u)))
    else
      var ins := Store.InsertUser(w.db, u);
      if ins.1.Fail? then (World(ins.0, w.cache), Registration(None, "", Some(ins.1.error)))
      else
        var saved := u.(id := ins.1.value);
        var w2 := World(ins.0, PutUser(w.cache, saved, UserTTL).0);
        match sign(saved.id, saved.username, saved.email)
        case None => (w2, Registration(Some(saved), "", Some(TokenError)))
        case Some(token) => (w2, Registration(Some(saved), token, None))
  }

  /** Cache first; on any cache failure the store, and a found user is cached for 15 minutes. */
  function GetUserByIDSpec(w: World, id: int): (World, Result<UserRecord>) {
    match LookupUser(w.cache, id)
    case Ok(u) => (w, Ok(u))
    case Fail(_) =>
      match Store.SelectUser(w.db, id)
      case Fail(e) => (w, Fail(e))
      case Ok(u) => (w.(cache := PutUser(w.cache, u, UserTTL).0), Ok(u))
  }

  function GetUserWithStatsSpec(w: World, id: int): (World, Profile) {
    var got := GetUserByIDSpec(w, id);
    if got.1.Fail? then (got.0, Profile(None, None, Some(got.1.error)))
    else
      match Store.CountStats(got.0.db, id)
      case Fail(e) => (got.0, Profile(Some(got.1.value), None, Some(e)))
      case Ok(stats) => (got.0, Profile(Some(got.1.value), Some(stats), None))
  }

  /** The store's row with the three profile fields replaced; nothing is validated. */
  function UpdateUserSpec(w: World, id: int, displayName: string, bio: string, profileImage: string, now: int)
    : (World, Result<UserRecord>)
  {
    match Store.SelectUser(w.db, id)
    case Fail(e) => (w, Fail(e))
    case Ok(u) =>
      var changed := u.(displayName := displayName, bio := bio, profileImage := profileImage, updatedAt := now);
      var upd := Store.UpdateUser(w.db, changed);
      if upd.1.Some? then (World(upd.0, w.cache), Fail(upd.1.value))
      else (World(upd.0, Remove(w.cache, UserKey(id)).0), Ok(changed))
  }

  /** Both users' entries are dropped, the follower's first. */
  function ForgetBoth(c: CacheView, a: int, b: int): CacheView {
    Remove(Remove(c, UserKey(a)).0, UserKey(b)).0
  }

  function FollowUserSpec(w: World, followerId: int, followingId: int, now: int): (World, Option<Err>) {
    if followerId == followingId then (w, Some(CannotFollowSelf))
    else
      var ins := Store.InsertFollow(w.db, followerId, followingId, now);
      if ins.1.Some? then (World(ins.0, w.cache), ins.1)
      else (World(ins.0, ForgetBoth(w.cache, followerId, followingId)), None)
  }

  function UnfollowUserSpec(w: World, followerId: int, followingId: int): (World, Option<Err>) {
    var del := Store.DeleteFollow(w.db, followerId, followingId);
    if del.1.Some? then (World(del.0, w.cache), del.1)
    else (World(del.0, ForgetBoth(w.cache, followerId, followingId)), None)
  }

  // ------------------------------------------------------------ properties

  /** Invalid input is reported before anything is written. */
  lemma CreateUserInvalidWritesNothing(w: World, username: string, email: string, displayName: string,
                                       now: int, sign: Signer)
    requires username == "" || email == "" || displayName == ""
    ensures var r := CreateUserSpec(w, username, email, displayName, now, sign);
      && r.0 == w
      && r.1.user.None?
      && r.1.err == ValidateUser(NewUserRecord(username, email, displayName, now))
      && r.1.err.Some?
  {
  }

  /**
   * Once the row is stored the user is cached under user:<id>, whether or
   * not the token can be signed; a failed signature returns the user with
   * the error. The cache holds the user as submitted, the store the row
   * with its values cut to their columns' widths.
   */
  lemma CreateUserCachesUser(w: World, username: string, email: string, displayName: string,
                             now: int, sign: Signer)
    requires Live(w.cache)
    requires Store.Valid(w.db)
    ensures var r := CreateUserSpec(w, username, email, displayName, now, sign);
      r.1.user.Some? ==>
        && r.1.user.value.id !in w.db.users
        && Store.SelectUser(r.0.db, r.1.user.value.id) == Ok(Store.UserAsStored(r.1.user.value))
        && LookupUser(r.0.cache, r.1.user.value.id) == Ok(r.1.user.value)
        && (r.1.err.Some? <==> r.1.err == Some(TokenError))
        && (r.1.err.Some? <==> sign(r.1.user.value.id, username, email).None?)
  {
    var u := NewUserRecord(username, email, displayName, now);
    var ins := Store.InsertUser(w.db, u);
    if ValidateUser(u).None? && ins.1.Ok? {
      PutUserThenLookup(w.cache, u.(id := ins.1.value), UserTTL, ins.1.value);
    }
  }

  /** A stored user is one whose fields are exactly the submitted ones. */
  lemma CreateUserStoresInput(w: World, username: string, email: string, displayName: string,
                              now: int, sign: Signer)
    ensures var r := CreateUserSpec(w, username, email, displayName, now, sign);
      r.1.user.Some? ==>
        && r.1.user.value.username == username && r.1.user.value.email == email
        && r.1.user.value.displayName == displayName
        && r.1.user.value.bio == "" && r.1.user.value.profileImage == ""
        && r.1.user.value.createdAt == r.1.user.value.updatedAt == now
  {
  }

  /**
   * A registered user is what GetUserByID returns next: from the cache as
   * submitted when the cache answers, otherwise from the store as stored.
   * It still is when the store has become unreachable in between, provided
   * the cache answers.
   */
  lemma RegisterThenGet(w: World, username: string, email: string, displayName: string,
                        now: int, sign: Signer)
    ensures var r := CreateUserSpec(w, username, email, displayName, now, sign);
      r.1.user.Some? ==>
        && GetUserByIDSpec(r.0, r.1.user.value.id).1
           == Ok(if Live(w.cache) then r.1.user.value else Store.UserAsStored(r.1.user.value))
        && (Live(w.cache) ==>
              GetUserByIDSpec(r.0.(db := r.0.db.(online := false)), r.1.user.value.id).1 == Ok(r.1.user.value))
  {
    var u := NewUserRecord(username, email, displayName, now);
    var ins := Store.InsertUser(w.db, u);
    if ValidateUser(u).None? && ins.1.Ok? && Live(w.cache) {
      PutUserThenLookup(w.cache, u.(id := ins.1.value), UserTTL, ins.1.value);
    }
  }

  /** A cache hit is returned as it is; the store is not consulted, whatever it holds. */
  lemma GetUserByIDHit(w: World, id: int, other: Store.DbState)
    requires LookupUser(w.cache, id).Ok?
    ensures GetUserByIDSpec(w, id) == (w, LookupUser(w.cache, id))
    ensures GetUserByIDSpec(World(other, w.cache), id).1 == LookupUser(w.cache, id)
  {
  }

  /**
   * On a miss the store decides: its error comes back with the cache
   * unchanged; a found user is returned and, when the cache answers, cached.
   */
  lemma GetUserByIDMiss(w: World, id: int)
    requires LookupUser(w.cache, id).Fail?
    requires Store.Valid(w.db)
    ensures var r := GetUserByIDSpec(w, id);
      && r.0.db == w.db
      && r.1 == Store.SelectUser(w.db, id)
      && (r.1.Fail? ==> r.0 == w)
      && (r.1.Ok? && Live(w.cache) ==> LookupUser(r.0.cache, id) == r.1)
  {
    if Store.SelectUser(w.db, id).Ok? && Live(w.cache) {
      PutUserThenLookup(w.cache, Store.SelectUser(w.db, id).value, UserTTL, id);
    }
  }

  /** GetUserByID and GetUserWithStats change no table and no blog entry. */
  lemma GetUserByIDChangesNoTable(w: World, id: int, blogId: int)
    ensures GetUserByIDSpec(w, id).0.db == w.db
    ensures GetUserWithStatsSpec(w, id).0 == GetUserByIDSpec(w, id).0
    ensures LookupBlog(GetUserByIDSpec(w, id).0.cache, blogId) == LookupBlog(w.cache, blogId)
  {
    var u := Store.SelectUser(w.db, id);
    if LookupUser(w.cache, id).Fail? && u.Ok? && Live(w.cache) {
      PutUserThenLookup(w.cache, u.value, UserTTL, blogId);
    }
  }

  /**
   * A failed user lookup is returned without statistics; failed statistics
   * come back together with the user.
   */
  lemma GetUserWithStatsResults(w: World, id: int)
    ensures var got := GetUserByIDSpec(w, id);
      var r := GetUserWithStatsSpec(w, id);
      && (got.1.Fail? ==> r.1 == Profile(None, None, Some(got.1.error)))
      && (got.1.Ok? && !w.db.online ==> r.1 == Profile(Some(got.1.value), None, Some(Store.Down)))
      && (got.1.Ok? && w.db.online ==> r.1 == Profile(Some(got.1.value), Some(Store.CountStats(w.db, id).value), None))
  {
  }

  /**
   * A successful UpdateUser leaves the store's row with the new profile
   * fields, cut to their columns' widths, and the old username, email and
   * creation time, and user:<id> out of the cache. The row is read from the store, so what the cache
   * holds does not matter.
   */
  lemma UpdateUserEffect(w: World, id: int, displayName: string, bio: string, profileImage: string,
                         now: int, other: CacheView)
    requires Store.Valid(w.db)
    ensures var r := UpdateUserSpec(w, id, displayName, bio, profileImage, now);
      && r.1 == UpdateUserSpec(World(w.db, other), id, displayName, bio, profileImage, now).1
      && (r.1.Ok? ==>
            && id in w.db.users
            && Store.SelectUser(r.0.db, id)
               == Ok(r.1.value.(displayName := Store.Cut(displayName, Store.DisplayNameWidth),
                                profileImage := Store.Cut(profileImage, Store.ProfileImageWidth)))
            && r.1.value == w.db.users[id].(displayName := displayName, bio := bio,
                                           profileImage := profileImage, updatedAt := now)
            && (Live(w.cache) ==> LookupUser(r.0.cache, id) == Fail(CacheError(NotInCache))))
      && (r.1.Fail? ==> r.0.cache == w.cache)
  {
    if Store.SelectUser(w.db, id).Ok? && Live(w.cache) {
      RemoveUserThenLookup(w.cache, id, id);
    }
  }

  /** Following oneself is refused before the store or the cache is touched. */
  lemma FollowSelfRefused(w: World, id: int, now: int)
    ensures FollowUserSpec(w, id, id, now) == (w, Some(CannotFollowSelf))
  {
  }

  /**
   * After a successful follow or unfollow the pair is (or is no longer) in
   * the follow set and neither user is cached; other entries stay put.
   */
  lemma FollowInvalidatesBoth(w: World, a: int, b: int, now: int, other: int)
    requires Live(w.cache)
    requires other != a && other != b
    ensures var r := FollowUserSpec(w, a, b, now);
      r.1.None? ==>
        && Store.Follows(r.0.db, a, b)
        && LookupUser(r.0.cache, a) == Fail(CacheError(NotInCache))
        && LookupUser(r.0.cache, b) == Fail(CacheError(NotInCache))
        && LookupUser(r.0.cache, other) == LookupUser(w.cache, other)
        && LookupBlog(r.0.cache, other) == LookupBlog(w.cache, other)
    ensures var r := UnfollowUserSpec(w, a, b);
      r.1.None? ==>
        && !Store.Follows(r.0.db, a, b)
        && LookupUser(r.0.cache, a) == Fail(CacheError(NotInCache))
        && LookupUser(r.0.cache, b) == Fail(CacheError(NotInCache))
        && LookupUser(r.0.cache, other) == LookupUser(w.cache, other)
        && LookupBlog(r.0.cache, other) == LookupBlog(w.cache, other)
  {
    ForgetBothLookups(w.cache, a, b, other);
  }

  lemma ForgetBothLookups(c: CacheView, a: int, b: int, other: int)
    requires Live(c)
    requires other != a && other != b
    ensures LookupUser(ForgetBoth(c, a, b), a) == Fail(CacheError(NotInCache))
    ensures LookupUser(ForgetBoth(c, a, b), b) == Fail(CacheError(NotInCache))
    ensures LookupUser(ForgetBoth(c, a, b), other) == LookupUser(c, other)
    ensures LookupBlog(ForgetBoth(c, a, b), other) == LookupBlog(c, other)
  {
    var c1 := Remove(c, UserKey(a)).0;
    RemoveUserThenLookup(c, a, b);
    RemoveUserThenLookup(c, a, other);
    RemoveUserThenLookup(c1, b, a);
    RemoveUserThenLookup(c1, b, other);
  }

  /** Unfollowing has no self check: unfollowing oneself succeeds whenever the store answers. */
  lemma UnfollowSelfAllowed(w: World, id: int)
    ensures UnfollowUserSpec(w, id, id).1.None? <==> w.db.online
  {
  }

  /** Every user use case keeps the schema's constraints. */
  lemma UserFlowsKeepValid(w: World, id: int, a: int, b: int, username: string, email: string,
                           displayName: string, bio: string, profileImage: string, now: int, sign: Signer)
    requires Store.Valid(w.db)
    ensures Store.Valid(CreateUserSpec(w, username, email, displayName, now, sign).0.db)
    ensures Store.Valid(GetUserByIDSpec(w, id).0.db)
    ensures Store.Valid(UpdateUserSpec(w, id, displayName, bio, profileImage, now).0.db)
    ensures Store.Valid(FollowUserSpec(w, a, b, now).0.db)
    ensures Store.Valid(UnfollowUserSpec(w, a, b).0.db)
  {
    Store.InsertFollowKeepsValid(w.db, a, b, now);
    Store.DeleteFollowKeepsValid(w.db, a, b);
  }

  // ----------------------------------------------------------- the object

  /** Values delivered as a user pointer and an error. */
  predicate Delivered(user: User?, err: Option<Err>, r: Result<UserRecord>)
    reads user
  {
    match r
    case Ok(u) => err.None? && user != null && user.Record() == u
    case Fail(e) => err == Some(e) && user == null
  }

  class UserUseCase {
    const userRepo: UserRepository
    const cacheRepo: CacheRepository

    constructor (userRepo: UserRepository, cacheRepo: CacheRepository)
      ensures this.userRepo == userRepo && this.cacheRepo == cacheRepo
    {
      this.userRepo := userRepo;
      this.cacheRepo := cacheRepo;
    }

    function Current(): World
      reads userRepo.db, Redis(cacheRepo)
    {
      World(userRepo.db.State(), CacheOf(cacheRepo))
    }

    method CreateUser(username: string, email: string, displayName: string, now: int, sign: Signer)
      returns (user: User?, token: string, err: Option<Err>)
      modifies userRepo.db, Redis(cacheRepo)
      ensures var r := CreateUserSpec(old(Current()), username, email, displayName, now, sign);
        && Current() == r.0
        && token == r.1.token && err == r.1.err
        && (match r.1.user
            case Some(u) => user != null && fresh(user) && user.Record() == u
            case None => user == null)
      ensures old(userRepo.db.Valid()) ==> userRepo.db.Valid()
    {
      user := new User(username, email, displayName, now);
      var invalid := user.Validate();
      if invalid.Some? {
        return null, "", invalid;
      }
      err := userRepo.Create(user);
      if err.Some? {
        return null, "", err;
      }
      if cacheRepo.Adapter? {
        var ignored := RedisCache.SetUser(cacheRepo.redis, user, UserTTL);
      }
      var signed := sign(user.id, user.username, user.email);
      if signed.None? {
        return user, "", Some(TokenError);
      }
      token, err := signed.value, None;
    }

    method GetUserByID(id: int) returns (user: User?, err: Option<Err>)
      modifies Redis(cacheRepo)
      ensures var r := GetUserByIDSpec(old(Current()), id);
        Current() == r.0 && Delivered(user, err, r.1)
      ensures user != null ==> fresh(user)
    {
      if cacheRepo.Adapter? {
        var cached, cacheErr := RedisCache.GetUser(cacheRepo.redis, id);
        if cacheErr.None? && cached != null {
          return cached, None;
        }
      }
      user, err := userRepo.GetByID(id);
      if err.Some? {
        return null, err;
      }
      if cacheRepo.Adapter? {
        var ignored := RedisCache.SetUser(cacheRepo.redis, user, UserTTL);
      }
    }

    method GetUserWithStats(id: int) returns (user: User?, stats: Option<UserStats>, err: Option<Err>)
      modifies Redis(cacheRepo)
      ensures var r := GetUserWithStatsSpec(old(Current()), id);
        && Current() == r.0 && stats == r.1.stats && err == r.1.err
        && (match r.1.user
            case Some(u) => user != null && fresh(user) && user.Record() == u
            case None => user == null)
    {
      user, err := GetUserByID(id);
      if err.Some? {
        return null, None, err;
      }
      stats, err := userRepo.GetStats(id);
    }

    method UpdateUser(id: int, displayName: string, bio: string, profileImage: string, now: int)
      returns (user: User?, err: Option<Err>)
      modifies userRepo.db, Redis(cacheRepo)
      ensures var r := UpdateUserSpec(old(Current()), id, displayName, bio, profileImage, now);
        Current() == r.0 && Delivered(user, err, r.1)
      ensures user != null ==> fresh(user)
      ensures old(userRepo.db.Valid()) ==> userRepo.db.Valid()
    {
      user, err := userRepo.GetByID(id);
      if err.Some? {
        return null, err;
      }
      user.Update(displayName, bio, profileImage, now);
      err := userRepo.Update(user);
      if err.Some? {
        return null, err;
      }
      if cacheRepo.Adapter? {
        var ignored := RedisCache.DeleteUser(cacheRepo.redis, id);
      }
    }

    method FollowUser(followerId: int, followingId: int, now: int) returns (err: Option<Err>)
      modifies userRepo.db, Redis(cacheRepo)
      ensures (Current(), err) == FollowUserSpec(old(Current()), followerId, followingId, now)
      ensures old(userRepo.db.Valid()) ==> userRepo.db.Valid()
    {
      if followerId == followingId {
        return Some(CannotFollowSelf);
      }
      err := userRepo.Follow(followerId, followingId, now);
      if err.Some? {
        return err;
      }
      if cacheRepo.Adapter? {
        var ignored := RedisCache.DeleteUser(cacheRepo.redis, followerId);
        ignored := RedisCache.DeleteUser(cacheRepo.redis, followingId);
      }
    }

    method UnfollowUser(followerId: int, followingId: int) returns (err: Option<Err>)
      modifies userRepo.db, Redis(cacheRepo)
      ensures (Current(), err) == UnfollowUserSpec(old(Current()), followerId, followingId)
      ensures old(userRepo.db.Valid()) ==> userRepo.db.Valid()
    {
      err := userRepo.Unfollow(followerId, followingId);
      if err.Some? {
        return err;
      }
      if cacheRepo.Adapter? {
        var ignored := RedisCache.DeleteUser(cacheRepo.redis, followerId);
        ignored := RedisCache.DeleteUser(cacheRepo.redis, followingId);
      }
    }

    method GetFollowers(userId: int, limit: int, offset: int) returns (users: seq<User>, err: Option<Err>)
      ensures match Store.SelectFollowers(userRepo.db.State(), userId, limit, offset)
        case Ok(rows) => err.None? && UserRecords(users) == rows
                         && forall i :: 0 <= i < |users| ==> fresh(users[i])
        case Fail(e) => err == Some(e) && users == []
    {
      users, err := userRepo.GetFollowers(userId, limit, offset);
    }

    method GetFollowing(userId: int, limit: int, offset: int) returns (users: seq<User>, err: Option<Err>)
      ensures match Store.SelectFollowing(userRepo.db.State(), userId, limit, offset)
        case Ok(rows) => err.None? && UserRecords(users) == rows
                         && forall i :: 0 <= i < |users| ==> fresh(users[i])
        case Fail(e) => err == Some(e) && users == []
    {
      users, err := userRepo.GetFollowing(userId, limit, offset);
    }
  }
}
