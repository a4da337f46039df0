/**
 * What the cache-aside protocol achieves when the use cases run one after
 * another: every user entry in the key space is the user's row, and every
 * blog entry is what the store's join would return. The invariant is about
 * the entries whether or not the server answers right now, since an outage
 * hides keys without dropping them. Under it a GetUserByID or GetBlogByID
 * against an answering store returns exactly what the store holds.
 *
 * The reads keep the invariant in every state. The writes keep it while
 * their invalidations reach the server (or there is no cache), with three
 * exceptions shown below: a write during an outage, whose failed DEL is
 * ignored; UpdateUser, which does not invalidate the blog entries that
 * embed the user as their author; and CreateUser with a value the store
 * cuts to its column's width, which caches the uncut value.
 */
module Coherence {
  import opened Wrappers
  import opened Errors
  import opened Entity
  import Store
  import Paging
  import opened Cache
  import opened Wiring
  import opened UserFlows
  import opened BlogFlows

  /** What the store would answer for the user if it were reachable. */
  function StoredUser(db: Store.DbState, id: int): Result<UserRecord> {
    Store.SelectUser(db.(online := true), id)
  }

  /** What the store would answer for the blog if it were reachable. */
  function StoredBlog(db: Store.DbState, id: int): Result<BlogRecord> {
    Store.SelectBlog(db.(online := true), id)
  }

  /** The cache as it answers once the server is reachable again. */
  function Recovered(c: CacheView): CacheView {
    WithServer(c, true)
  }

  /** Invalidations reach the cache: there is none, or its server answers. */
  predicate Up(c: CacheView) {
    c.Absent? || c.reachable
  }

  ghost predicate UsersCoherent(w: World) {
    forall id :: LookupUser(Recovered(w.cache), id).Ok? ==>
      LookupUser(Recovered(w.cache), id) == StoredUser(w.db, id)
  }

  ghost predicate BlogsCoherent(w: World) {
    forall id :: LookupBlog(Recovered(w.cache), id).Ok? ==>
      LookupBlog(Recovered(w.cache), id) == StoredBlog(w.db, id)
  }

  /** An outage, or the end of one, neither makes nor breaks coherence. */
  lemma OutageKeepsCoherent(w: World, reachable: bool)
    ensures UsersCoherent(World(w.db, WithServer(w.cache, reachable))) <==> UsersCoherent(w)
    ensures BlogsCoherent(World(w.db, WithServer(w.cache, reachable))) <==> BlogsCoherent(w)
  {
    assert Recovered(WithServer(w.cache, reachable)) == Recovered(w.cache);
  }

  /** An empty or absent cache is coherent with any tables. */
  lemma EmptyCacheCoherent(db: Store.DbState, reachable: bool)
    ensures UsersCoherent(World(db, Absent)) && BlogsCoherent(World(db, Absent))
    ensures UsersCoherent(World(db, Present(reachable, map[])))
    ensures BlogsCoherent(World(db, Present(reachable, map[])))
  {
  }

  /** With a coherent cache and an answering store, reads return exactly what the store holds. */
  lemma CacheIsTransparent(w: World, id: int)
    requires UsersCoherent(w) && BlogsCoherent(w)
    requires w.db.online
    ensures GetUserByIDSpec(w, id).1 == Store.SelectUser(w.db, id)
    ensures GetBlogByIDSpec(w, id).1 == Store.SelectBlog(w.db, id)
  {
    assert w.db.(online := true) == w.db;
    if Up(w.cache) {
      assert Recovered(w.cache) == w.cache;
    }
  }

  // ------------------------------------------------------ cache-side steps

  /** Dropping keys never makes a coherent cache incoherent, whatever the key. */
  lemma RemoveKeepsCoherent(c: CacheView, key: string, id: int)
    ensures LookupUser(Remove(c, key).0, id).Ok? ==> LookupUser(Remove(c, key).0, id) == LookupUser(c, id)
    ensures LookupBlog(Remove(c, key).0, id).Ok? ==> LookupBlog(Remove(c, key).0, id) == LookupBlog(c, id)
    ensures LookupUser(RemoveMatching(c, key).0, id).Ok? ==> LookupUser(RemoveMatching(c, key).0, id) == LookupUser(c, id)
    ensures LookupBlog(RemoveMatching(c, key).0, id).Ok? ==> LookupBlog(RemoveMatching(c, key).0, id) == LookupBlog(c, id)
  {
  }

  /** Lookups after ForgetBoth are misses or the earlier values. */
  lemma ForgetBothShrinks(c: CacheView, a: int, b: int, id: int)
    ensures LookupUser(ForgetBoth(c, a, b), id).Ok? ==> LookupUser(ForgetBoth(c, a, b), id) == LookupUser(c, id)
    ensures LookupBlog(ForgetBoth(c, a, b), id).Ok? ==> LookupBlog(ForgetBoth(c, a, b), id) == LookupBlog(c, id)
  {
    RemoveKeepsCoherent(c, UserKey(a), id);
    RemoveKeepsCoherent(Remove(c, UserKey(a)).0, UserKey(b), id);
  }

  /** Lookups after ForgetBlog are misses or the earlier values; user lookups are unchanged. */
  lemma ForgetBlogShrinks(c: CacheView, blogId: int, id: int)
    ensures LookupUser(ForgetBlog(c, blogId), id) == LookupUser(c, id)
    ensures LookupBlog(ForgetBlog(c, blogId), id).Ok? ==> id != blogId
    ensures LookupBlog(ForgetBlog(c, blogId), id).Ok? ==> LookupBlog(ForgetBlog(c, blogId), id) == LookupBlog(c, id)
  {
    var c1 := Remove(c, BlogKey(blogId)).0;
    RemoveKeepsCoherent(c, BlogKey(blogId), id);
    RemoveKeepsCoherent(c1, BlogListPattern, id);
    RemoveBlogListKeepsEntities(c1, id);
    if Live(c) {
      RemoveBlogThenLookup(c, blogId, id);
    }
  }

  // ------------------------------------------------------ the user flows

  /**
   * CreateUser keeps coherence when the submitted values fit their columns;
   * CreateUserCanCacheUncutValue shows a value the store cuts.
   */
  lemma CreateUserKeepsCoherent(w: World, username: string, email: string, displayName: string,
                                now: int, sign: Signer)
    requires Up(w.cache)
    requires Store.UserWithinWidths(NewUserRecord(username, email, displayName, now))
    requires Store.Valid(w.db) && UsersCoherent(w) && BlogsCoherent(w)
    ensures UsersCoherent(CreateUserSpec(w, username, email, displayName, now, sign).0)
    ensures BlogsCoherent(CreateUserSpec(w, username, email, displayName, now, sign).0)
  {
    assert Recovered(w.cache) == w.cache;
    var u := NewUserRecord(username, email, displayName, now);
    var ins := Store.InsertUser(w.db, u);
    var r := CreateUserSpec(w, username, email, displayName, now, sign);
    if ValidateUser(u).None? && ins.1.Ok? {
      var saved := u.(id := ins.1.value);
      forall id | LookupUser(r.0.cache, id).Ok?
        ensures LookupUser(r.0.cache, id) == StoredUser(r.0.db, id)
      {
        if Live(w.cache) {
          PutUserThenLookup(w.cache, saved, UserTTL, id);
        }
      }
      forall id | LookupBlog(r.0.cache, id).Ok?
        ensures LookupBlog(r.0.cache, id) == StoredBlog(r.0.db, id)
      {
        if Live(w.cache) {
          PutUserThenLookup(w.cache, saved, UserTTL, id);
        }
        assert LookupBlog(w.cache, id).Ok?;
        var row := w.db.blogs[id];
        assert row.authorId != saved.id;
      }
    }
  }

  lemma GetUserByIDKeepsCoherent(w: World, id: int)
    requires Store.Valid(w.db) && UsersCoherent(w) && BlogsCoherent(w)
    ensures UsersCoherent(GetUserByIDSpec(w, id).0) && BlogsCoherent(GetUserByIDSpec(w, id).0)
    ensures UsersCoherent(GetUserWithStatsSpec(w, id).0) && BlogsCoherent(GetUserWithStatsSpec(w, id).0)
  {
    var r := GetUserByIDSpec(w, id);
    if LookupUser(w.cache, id).Fail? && Store.SelectUser(w.db, id).Ok? && Live(w.cache) {
      var u := Store.SelectUser(w.db, id).value;
      forall j | LookupUser(r.0.cache, j).Ok?
        ensures LookupUser(r.0.cache, j) == StoredUser(r.0.db, j)
      {
        PutUserThenLookup(w.cache, u, UserTTL, j);
      }
      forall j | LookupBlog(r.0.cache, j).Ok?
        ensures LookupBlog(r.0.cache, j) == StoredBlog(r.0.db, j)
      {
        PutUserThenLookup(w.cache, u, UserTTL, j);
      }
    }
  }

  /** UpdateUser keeps the user entries coherent; blog entries are the subject of UpdateUserCanLeaveBlogStale. */
  lemma UpdateUserKeepsUsersCoherent(w: World, id: int, displayName: string, bio: string,
                                     profileImage: string, now: int)
    requires Up(w.cache)
    requires Store.Valid(w.db) && UsersCoherent(w)
    ensures UsersCoherent(UpdateUserSpec(w, id, displayName, bio, profileImage, now).0)
  {
    assert Recovered(w.cache) == w.cache;
    var r := UpdateUserSpec(w, id, displayName, bio, profileImage, now);
    if Store.SelectUser(w.db, id).Ok? {
      forall j | LookupUser(r.0.cache, j).Ok?
        ensures LookupUser(r.0.cache, j) == StoredUser(r.0.db, j)
      {
        RemoveKeepsCoherent(w.cache, UserKey(id), j);
        if Live(w.cache) && r.1.Ok? {
          RemoveUserThenLookup(w.cache, id, j);
        }
      }
    }
  }

  lemma FollowKeepsCoherent(w: World, a: int, b: int, now: int)
    requires Up(w.cache)
    requires UsersCoherent(w) && BlogsCoherent(w)
    ensures UsersCoherent(FollowUserSpec(w, a, b, now).0) && BlogsCoherent(FollowUserSpec(w, a, b, now).0)
    ensures UsersCoherent(UnfollowUserSpec(w, a, b).0) && BlogsCoherent(UnfollowUserSpec(w, a, b).0)
  {
    assert Recovered(w.cache) == w.cache;
    var f := FollowUserSpec(w, a, b, now);
    var u := UnfollowUserSpec(w, a, b);
    forall id | LookupUser(f.0.cache, id).Ok?
      ensures LookupUser(f.0.cache, id) == StoredUser(f.0.db, id)
    {
      ForgetBothShrinks(w.cache, a, b, id);
    }
    forall id | LookupBlog(f.0.cache, id).Ok?
      ensures LookupBlog(f.0.cache, id) == StoredBlog(f.0.db, id)
    {
      ForgetBothShrinks(w.cache, a, b, id);
    }
    forall id | LookupUser(u.0.cache, id).Ok?
      ensures LookupUser(u.0.cache, id) == StoredUser(u.0.db, id)
    {
      ForgetBothShrinks(w.cache, a, b, id);
    }
    forall id | LookupBlog(u.0.cache, id).Ok?
      ensures LookupBlog(u.0.cache, id) == StoredBlog(u.0.db, id)
    {
      ForgetBothShrinks(w.cache, a, b, id);
    }
  }

  // ------------------------------------------------------ the blog flows

  lemma CreateBlogKeepsCoherent(w: World, title: string, description: string, body: string,
                                authorId: int, now: int)
    requires Up(w.cache)
    requires Store.Valid(w.db) && UsersCoherent(w) && BlogsCoherent(w)
    ensures UsersCoherent(CreateBlogSpec(w, title, description, body, authorId, now).0)
    ensures BlogsCoherent(CreateBlogSpec(w, title, description, body, authorId, now).0)
  {
    assert Recovered(w.cache) == w.cache;
    var r := CreateBlogSpec(w, title, description, body, authorId, now);
    forall id | LookupUser(r.0.cache, id).Ok?
      ensures LookupUser(r.0.cache, id) == StoredUser(r.0.db, id)
    {
      RemoveBlogListKeepsEntities(w.cache, id);
    }
    forall id | LookupBlog(r.0.cache, id).Ok?
      ensures LookupBlog(r.0.cache, id) == StoredBlog(r.0.db, id)
    {
      RemoveBlogListKeepsEntities(w.cache, id);
    }
  }

  lemma GetBlogByIDKeepsCoherent(w: World, id: int)
    requires Store.Valid(w.db) && UsersCoherent(w) && BlogsCoherent(w)
    ensures UsersCoherent(GetBlogByIDSpec(w, id).0) && BlogsCoherent(GetBlogByIDSpec(w, id).0)
  {
    var r := GetBlogByIDSpec(w, id);
    if LookupBlog(w.cache, id).Fail? && Store.SelectBlog(w.db, id).Ok? && Live(w.cache) {
      var b := Store.SelectBlog(w.db, id).value;
      forall j | LookupUser(r.0.cache, j).Ok?
        ensures LookupUser(r.0.cache, j) == StoredUser(r.0.db, j)
      {
        PutBlogThenLookup(w.cache, b, BlogTTL, j);
      }
      forall j | LookupBlog(r.0.cache, j).Ok?
        ensures LookupBlog(r.0.cache, j) == StoredBlog(r.0.db, j)
      {
        PutBlogThenLookup(w.cache, b, BlogTTL, j);
      }
    }
  }

  /** The join of blog j depends only on the users, the blogs and blog j's likes. */
  lemma SameJoin(d1: Store.DbState, d2: Store.DbState, j: int)
    requires d1.users == d2.users && d1.blogs == d2.blogs && (j in d1.blogs ==> d1.blogs[j].id == j)
    requires Store.CountLikes(d1, j) == Store.CountLikes(d2, j)
    ensures StoredBlog(d1, j) == StoredBlog(d2, j)
  {
    assert Store.CountLikes(d1.(online := true), j) == Store.CountLikes(d1, j);
    assert Store.CountLikes(d2.(online := true), j) == Store.CountLikes(d2, j);
  }

  /** One blog id after UpdateBlog: a miss, or the stored join. */
  lemma UpdateBlogAt(w: World, id: int, title: string, description: string, body: string,
                     userId: int, now: int, j: int)
    requires Store.Valid(w.db)
    requires LookupBlog(w.cache, j).Ok? ==> LookupBlog(w.cache, j) == StoredBlog(w.db, j)
    ensures var r := UpdateBlogSpec(w, id, title, description, body, userId, now);
      LookupBlog(r.0.cache, j).Ok? ==> LookupBlog(r.0.cache, j) == StoredBlog(r.0.db, j)
  {
    var r := UpdateBlogSpec(w, id, title, description, body, userId, now);
    if LookupBlog(r.0.cache, j).Ok? {
      if r.1.Ok? {
        ForgetBlogShrinks(w.cache, id, j);
        var b := Store.SelectBlog(w.db, id).value;
        assert b.id == id;
        var changed := b.(title := title, description := description, body := body, updatedAt := now);
        assert r.0.db == Store.UpdateBlog(w.db, changed).0;
        assert r.0.db.blogs == w.db.blogs[id := r.0.db.blogs[id]];
        SameJoin(r.0.db.(blogs := w.db.blogs), w.db, j);
      } else {
        assert r.0.db == w.db && r.0.cache == w.cache;
      }
    }
  }

  lemma UpdateBlogKeepsCoherent(w: World, id: int, title: string, description: string, body: string,
                                userId: int, now: int)
    requires Up(w.cache)
    requires Store.Valid(w.db) && UsersCoherent(w) && BlogsCoherent(w)
    ensures UsersCoherent(UpdateBlogSpec(w, id, title, description, body, userId, now).0)
    ensures BlogsCoherent(UpdateBlogSpec(w, id, title, description, body, userId, now).0)
  {
    assert Recovered(w.cache) == w.cache;
    var r := UpdateBlogSpec(w, id, title, description, body, userId, now);
    assert r.0.db.users == w.db.users;
    forall j | LookupUser(r.0.cache, j).Ok?
      ensures LookupUser(r.0.cache, j) == StoredUser(r.0.db, j)
    {
      ForgetBlogShrinks(w.cache, id, j);
    }
    forall j | LookupBlog(r.0.cache, j).Ok?
      ensures LookupBlog(r.0.cache, j) == StoredBlog(r.0.db, j)
    {
      assert LookupBlog(w.cache, j).Ok? ==> LookupBlog(w.cache, j) == StoredBlog(w.db, j);
      UpdateBlogAt(w, id, title, description, body, userId, now, j);
    }
  }

  /** Deleting one blog leaves the join of every other blog as it was. */
  lemma DeleteKeepsOtherJoin(s: Store.DbState, id: int, authorId: int, j: int)
    requires Store.DeleteBlog(s, id, authorId).1.None?
    requires j != id && (j in s.blogs ==> s.blogs[j].id == j)
    ensures StoredBlog(Store.DeleteBlog(s, id, authorId).0, j) == StoredBlog(s, j)
  {
    var t := Store.DeleteBlog(s, id, authorId).0;
    assert t == s.(blogs := s.blogs - {id}, likes := Paging.Filter(s.likes, Store.NotOnBlog(id)));
    Paging.FilterOfFilter(s.likes, Store.NotOnBlog(id), Store.OnBlog(j));
    assert Store.CountLikes(t, j) == Store.CountLikes(s, j);
    SameJoin(t.(blogs := s.blogs), s, j);
  }

  /** One blog id after DeleteBlog: a miss, or the stored join, which the delete did not touch. */
  lemma DeleteBlogAt(w: World, id: int, userId: int, j: int)
    requires Store.Valid(w.db)
    requires LookupBlog(w.cache, j).Ok? ==> LookupBlog(w.cache, j) == StoredBlog(w.db, j)
    ensures var r := DeleteBlogSpec(w, id, userId);
      LookupBlog(r.0.cache, j).Ok? ==> LookupBlog(r.0.cache, j) == StoredBlog(r.0.db, j)
  {
    var r := DeleteBlogSpec(w, id, userId);
    if LookupBlog(r.0.cache, j).Ok? {
      var del := Store.DeleteBlog(w.db, id, userId);
      if Store.SelectBlog(w.db, id).Ok? && Store.SelectBlog(w.db, id).value.authorId == userId && del.1.None? {
        assert r == (World(del.0, ForgetBlog(w.cache, id)), None);
        ForgetBlogShrinks(w.cache, id, j);
        DeleteKeepsOtherJoin(w.db, id, userId, j);
      } else {
        assert r.0.cache == w.cache;
      }
    }
  }

  lemma DeleteBlogKeepsCoherent(w: World, id: int, userId: int)
    requires Up(w.cache)
    requires Store.Valid(w.db) && UsersCoherent(w) && BlogsCoherent(w)
    ensures UsersCoherent(DeleteBlogSpec(w, id, userId).0)
    ensures BlogsCoherent(DeleteBlogSpec(w, id, userId).0)
  {
    assert Recovered(w.cache) == w.cache;
    var r := DeleteBlogSpec(w, id, userId);
    assert r.0.db.users == w.db.users;
    forall j | LookupUser(r.0.cache, j).Ok?
      ensures LookupUser(r.0.cache, j) == StoredUser(r.0.db, j)
    {
      ForgetBlogShrinks(w.cache, id, j);
    }
    forall j | LookupBlog(r.0.cache, j).Ok?
      ensures LookupBlog(r.0.cache, j) == StoredBlog(r.0.db, j)
    {
      assert LookupBlog(w.cache, j).Ok? ==> LookupBlog(w.cache, j) == StoredBlog(w.db, j);
      DeleteBlogAt(w, id, userId, j);
    }
  }

  /** A like or an unlike of one blog leaves every other blog's count of likes alone. */
  lemma OtherCountsKept(s: Store.DbState, blogId: int, userId: int, now: int, j: int)
    requires j != blogId
    ensures Store.CountLikes(Store.InsertLike(s, blogId, userId, now).0, j) == Store.CountLikes(s, j)
    ensures Store.CountLikes(Store.DeleteLike(s, blogId, userId).0, j) == Store.CountLikes(s, j)
  {
    var row := Store.LikeRow(blogId, userId, now);
    var ins := Store.InsertLike(s, blogId, userId, now).0;
    if ins.likes != s.likes {
      assert ins.likes == s.likes + [row];
      Paging.FilterAppendRejected(s.likes, row, Store.OnBlog(j));
    }
    Paging.FilterOfFilter(s.likes, Store.NotLike(blogId, userId), Store.OnBlog(j));
  }

  /** One blog id after LikeBlog: a miss, or the stored join with its count of likes. */
  lemma LikeAt(w: World, blogId: int, userId: int, now: int, j: int)
    requires Store.Valid(w.db)
    requires LookupBlog(w.cache, j).Ok? ==> LookupBlog(w.cache, j) == StoredBlog(w.db, j)
    ensures var r := LikeBlogSpec(w, blogId, userId, now);
      LookupBlog(r.0.cache, j).Ok? ==> LookupBlog(r.0.cache, j) == StoredBlog(r.0.db, j)
  {
    var r := LikeBlogSpec(w, blogId, userId, now);
    if LookupBlog(r.0.cache, j).Ok? && r.1.None? {
      RemoveKeepsCoherent(w.cache, BlogKey(blogId), j);
      if Live(w.cache) {
        RemoveBlogThenLookup(w.cache, blogId, j);
        OtherCountsKept(w.db, blogId, userId, now, j);
        SameJoin(r.0.db, w.db, j);
      }
    }
  }

  /** One blog id after UnlikeBlog: a miss, or the stored join with its count of likes. */
  lemma UnlikeAt(w: World, blogId: int, userId: int, j: int)
    requires Store.Valid(w.db)
    requires LookupBlog(w.cache, j).Ok? ==> LookupBlog(w.cache, j) == StoredBlog(w.db, j)
    ensures var r := UnlikeBlogSpec(w, blogId, userId);
      LookupBlog(r.0.cache, j).Ok? ==> LookupBlog(r.0.cache, j) == StoredBlog(r.0.db, j)
  {
    var r := UnlikeBlogSpec(w, blogId, userId);
    if LookupBlog(r.0.cache, j).Ok? && r.1.None? {
      RemoveKeepsCoherent(w.cache, BlogKey(blogId), j);
      if Live(w.cache) {
        RemoveBlogThenLookup(w.cache, blogId, j);
        OtherCountsKept(w.db, blogId, userId, 0, j);
        SameJoin(r.0.db, w.db, j);
      }
    }
  }

  lemma LikeKeepsCoherent(w: World, blogId: int, userId: int, now: int)
    requires Up(w.cache)
    requires Store.Valid(w.db)
    requires UsersCoherent(w) && BlogsCoherent(w)
    ensures UsersCoherent(LikeBlogSpec(w, blogId, userId, now).0)
    ensures BlogsCoherent(LikeBlogSpec(w, blogId, userId, now).0)
    ensures UsersCoherent(UnlikeBlogSpec(w, blogId, userId).0)
    ensures BlogsCoherent(UnlikeBlogSpec(w, blogId, userId).0)
  {
    assert Recovered(w.cache) == w.cache;
    var r := LikeBlogSpec(w, blogId, userId, now);
    var u := UnlikeBlogSpec(w, blogId, userId);
    forall j | LookupUser(r.0.cache, j).Ok?
      ensures LookupUser(r.0.cache, j) == StoredUser(r.0.db, j)
    {
      RemoveKeepsCoherent(w.cache, BlogKey(blogId), j);
    }
    forall j | LookupBlog(r.0.cache, j).Ok?
      ensures LookupBlog(r.0.cache, j) == StoredBlog(r.0.db, j)
    {
      assert LookupBlog(w.cache, j).Ok? ==> LookupBlog(w.cache, j) == StoredBlog(w.db, j);
      LikeAt(w, blogId, userId, now, j);
    }
    forall j | LookupUser(u.0.cache, j).Ok?
      ensures LookupUser(u.0.cache, j) == StoredUser(u.0.db, j)
    {
      RemoveKeepsCoherent(w.cache, BlogKey(blogId), j);
    }
    forall j | LookupBlog(u.0.cache, j).Ok?
      ensures LookupBlog(u.0.cache, j) == StoredBlog(u.0.db, j)
    {
      assert LookupBlog(w.cache, j).Ok? ==> LookupBlog(w.cache, j) == StoredBlog(w.db, j);
      UnlikeAt(w, blogId, userId, j);
    }
  }

  // ------------------------------------------- the one flow that breaks it

  /**
   * A new display name does not reach the author snapshot inside a cached
   * blog: right after UpdateUser, GetBlogByID serves the old name while the
   * store's join has the new one.
   */
  lemma UpdateUserCanLeaveBlogStale()
    ensures var author := UserRecord(1, "ada", "ada@example.org", "Ada", "", "", 0, 0);
      var db := Store.DbState(true, map[1 := author], map[1 := Store.BlogRow(1, "t", "", "b", 1, 0, 0)],
                              [], [], 2, 2);
      var cached := BlogRecord(1, "t", "", "b", 1, Some(author), 0, 0, 0);
      var w := World(db, Present(true, map[BlogKey(1) := Entry(BlogDoc(cached), BlogTTL)]));
      var r := UpdateUserSpec(w, 1, "Ada L.", "", "", 5);
      && Store.Valid(db) && UsersCoherent(w) && BlogsCoherent(w)
      && r.1.Ok?
      && GetBlogByIDSpec(r.0, 1).1 == Ok(cached)
      && Store.SelectBlog(r.0.db, 1).Ok?
      && Store.SelectBlog(r.0.db, 1).value.author == Some(author.(displayName := "Ada L.", updatedAt := 5))
      && !BlogsCoherent(r.0)
  {
    var author := UserRecord(1, "ada", "ada@example.org", "Ada", "", "", 0, 0);
    var db := Store.DbState(true, map[1 := author], map[1 := Store.BlogRow(1, "t", "", "b", 1, 0, 0)],
                            [], [], 2, 2);
    var cached := BlogRecord(1, "t", "", "b", 1, Some(author), 0, 0, 0);
    var w := World(db, Present(true, map[BlogKey(1) := Entry(BlogDoc(cached), BlogTTL)]));
    KeysDistinct(1, 1);
    forall id
      ensures LookupUser(w.cache, id).Fail?
    {
      KeysDistinct(id, 1);
    }
    forall id | LookupBlog(w.cache, id).Ok?
      ensures LookupBlog(w.cache, id) == StoredBlog(w.db, id)
    {
      KeysDistinct(1, id);
      KeysDistinct(id, 1);
    }
    var r := UpdateUserSpec(w, 1, "Ada L.", "", "", 5);
    RemoveUserThenLookup(w.cache, 1, 1);
    assert LookupBlog(r.0.cache, 1) == Ok(cached);
    assert Recovered(r.0.cache) == r.0.cache;
  }

  /**
   * A write while the server is away: blog:7 is cached, the connection
   * drops, UpdateBlog succeeds in the store and its DEL fails without
   * anyone noticing, and once the server is back GetBlogByID serves the
   * old blog while the store holds the new title.
   */
  lemma OutageCanLeaveBlogStale()
    ensures var author := UserRecord(1, "ada", "ada@example.org", "Ada", "", "", 0, 0);
      var db := Store.DbState(true, map[1 := author], map[7 := Store.BlogRow(7, "t", "", "b", 1, 0, 0)],
                              [], [], 2, 8);
      var cached := BlogRecord(7, "t", "", "b", 1, Some(author), 0, 0, 0);
      var w := World(db, Present(true, map[BlogKey(7) := Entry(BlogDoc(cached), BlogTTL)]));
      var away := World(db, WithServer(w.cache, false));
      var r := UpdateBlogSpec(away, 7, "new", "", "b", 1, 5);
      var back := World(r.0.db, WithServer(r.0.cache, true));
      && Store.Valid(db) && UsersCoherent(w) && BlogsCoherent(w) && BlogsCoherent(away)
      && r.1.Ok?
      && GetBlogByIDSpec(back, 7).1 == Ok(cached)
      && StoredBlog(back.db, 7).Ok? && StoredBlog(back.db, 7).value.title == "new"
      && !BlogsCoherent(r.0) && !BlogsCoherent(back)
  {
    var author := UserRecord(1, "ada", "ada@example.org", "Ada", "", "", 0, 0);
    var db := Store.DbState(true, map[1 := author], map[7 := Store.BlogRow(7, "t", "", "b", 1, 0, 0)],
                            [], [], 2, 8);
    var cached := BlogRecord(7, "t", "", "b", 1, Some(author), 0, 0, 0);
    var w := World(db, Present(true, map[BlogKey(7) := Entry(BlogDoc(cached), BlogTTL)]));
    assert Recovered(w.cache) == w.cache;
    forall id
      ensures LookupUser(w.cache, id).Fail?
    {
      KeysDistinct(id, 7);
    }
    forall id | LookupBlog(w.cache, id).Ok?
      ensures LookupBlog(w.cache, id) == StoredBlog(w.db, id)
    {
      KeysDistinct(7, id);
    }
    var away := World(db, WithServer(w.cache, false));
    OutageKeepsCoherent(w, false);
    var r := UpdateBlogSpec(away, 7, "new", "", "b", 1, 5);
    assert r.0.cache == away.cache;
    var back := World(r.0.db, WithServer(r.0.cache, true));
    assert back.cache == w.cache;
    assert LookupBlog(back.cache, 7) == Ok(cached);
  }

  /**
   * A username the store cuts: "alice" followed by 46 spaces is one
   * character over the width of its column and every excess character is
   * a space, so the row is stored with 50 characters while CreateUser
   * caches, and returns, the 51 it was given.
   */
  lemma CreateUserCanCacheUncutValue()
    ensures var name := "alice" + seq(46, _ => ' ');
      var w := World(Store.Empty, Present(true, map[]));
      var r := CreateUserSpec(w, name, "alice@example.org", "Alice", 0, (id: int, n: string, e: string) => Some("t"));
      && |name| == Store.UsernameWidth + 1
      && r.1.user.Some? && r.1.err.None?
      && LookupUser(r.0.cache, 1) == Ok(r.1.user.value) && r.1.user.value.username == name
      && StoredUser(r.0.db, 1).Ok? && StoredUser(r.0.db, 1).value.username == name[..Store.UsernameWidth]
      && !UsersCoherent(r.0)
  {
    var name := "alice" + seq(46, _ => ' ');
    var w := World(Store.Empty, Present(true, map[]));
    var u := NewUserRecord(name, "alice@example.org", "Alice", 0);
    assert name[Store.UsernameWidth..] == [' '];
    assert Store.UserFits(u);
    var r := CreateUserSpec(w, name, "alice@example.org", "Alice", 0, (id: int, n: string, e: string) => Some("t"));
    PutUserThenLookup(w.cache, u.(id := 1), UserTTL, 1);
    assert Recovered(r.0.cache) == r.0.cache;
    assert name != name[..Store.UsernameWidth];
  }
}
