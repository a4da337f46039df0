/**
 * What the statements of module Store promise when they are combined:
 * reading back what was written, idempotent link rows, counts that are the
 * sizes of the sets they count, and listings that agree with the lookups.
 */
module StoreLaws {
  import opened Wrappers
  import opened Errors
  import opened Entity
  import opened Paging
  import opened Store

  /**
   * A created user can be read back by id and by the username it was stored
   * with; values within their columns' widths come back exactly as given.
   */
  lemma InsertUserThenSelect(s: DbState, u: UserRecord)
    requires Valid(s) && InsertUser(s, u).1.Ok?
    ensures var (t, r) := InsertUser(s, u);
      && SelectUser(t, r.value) == Ok(UserAsStored(u).(id := r.value))
      && SelectUserByUsername(t, UserAsStored(u).username) == Ok(UserAsStored(u).(id := r.value))
      && (UserWithinWidths(u) ==> SelectUser(t, r.value) == Ok(u.(id := r.value)))
  {
    var (t, r) := InsertUser(s, u);
    var id := r.value;
    var name := UserAsStored(u).username;
    assert NamedAs(name)(t.users[id]);
    forall k | k in t.users && k != id
      ensures !NamedAs(name)(t.users[k])
    {
      assert k in s.users;
    }
  }

  /** GetByUsername finds the user holding the name, and only fails when nobody holds it. */
  lemma SelectByUsernameFinds(s: DbState, username: string)
    requires Valid(s) && s.online
    ensures var r := SelectUserByUsername(s, username);
      && (r.Ok? ==> r.value.username == username && r.value.id in s.users && s.users[r.value.id] == r.value)
      && (r.Fail? <==> forall id :: id in s.users ==> s.users[id].username != username)
      && (r.Fail? ==> r.error == UserNotFound)
  {
    var found := FindUser(s.users, NamedAs(username), s.nextUserId);
    if found.Some? {
      var k :| 1 <= k < s.nextUserId && k in s.users && s.users[k] == found.value && NamedAs(username)(found.value);
    } else {
      forall id | id in s.users
        ensures s.users[id].username != username
      {
        assert !NamedAs(username)(s.users[id]);
      }
    }
  }

  /** Following twice leaves the same tables as following once. */
  lemma FollowIdempotent(s: DbState, followerId: int, followingId: int, t1: int, t2: int)
    requires InsertFollow(s, followerId, followingId, t1).1.None?
    ensures var s1 := InsertFollow(s, followerId, followingId, t1).0;
      InsertFollow(s1, followerId, followingId, t2) == (s1, None)
  {
  }

  /** Unfollowing a pair that is not there changes no table. */
  lemma {:induction false} UnfollowAbsentNoop(s: DbState, followerId: int, followingId: int)
    requires s.online && !Follows(s, followerId, followingId)
    ensures DeleteFollow(s, followerId, followingId) == (s, None)
  {
    forall f | f in s.follows
      ensures NotPair(followerId, followingId)(f)
    {
    }
    FilterKeepsAll(s.follows, NotPair(followerId, followingId));
  }

  /** Follow then unfollow leaves no edge between the two users and touches no other edge. */
  lemma FollowThenUnfollow(s: DbState, followerId: int, followingId: int, now: int)
    requires InsertFollow(s, followerId, followingId, now).1.None?
    ensures var s2 := DeleteFollow(InsertFollow(s, followerId, followingId, now).0, followerId, followingId).0;
      && !Follows(s2, followerId, followingId)
      && forall a, b :: (a, b) != (followerId, followingId) ==> (Follows(s2, a, b) <==> Follows(s, a, b))
  {
    var s1 := InsertFollow(s, followerId, followingId, now).0;
    forall a, b | (a, b) != (followerId, followingId)
      ensures Follows(s1, a, b) <==> Follows(s, a, b)
    {
      if Follows(s1, a, b) && s1 != s {
        var f :| f in s1.follows && FollowPair(f) == (a, b);
        assert f in s.follows || f == FollowRow(followerId, followingId, now);
      }
    }
  }

  /** The followers count of GetStats is the number of distinct followers. */
  lemma FollowersCountIsCardinality(s: DbState, u: int)
    requires DistinctKeys(s.follows, FollowPair)
    ensures CountFollowers(s, u) == |FollowerIds(s, u)|
  {
    var fs := s.follows;
    forall i, j | 0 <= i < j < |fs| && FollowingIs(u)(fs[i]) && FollowingIs(u)(fs[j])
      ensures FollowerOf(fs[i]) != FollowerOf(fs[j])
    {
      assert FollowPair(fs[i]) != FollowPair(fs[j]);
    }
    FilterCountDistinct(fs, FollowingIs(u), FollowerOf);
    var counted := KeysOf(fs, FollowingIs(u), FollowerOf);
    assert counted == FollowerIds(s, u) by {
      forall y
        ensures y in counted <==> y in FollowerIds(s, u)
      {
        if y in FollowerIds(s, u) {
          var x :| x in fs && x.followingId == u && x.followerId == y;
          assert FollowingIs(u)(x) && FollowerOf(x) == y;
        }
      }
    }
  }

  /** The following count of GetStats is the number of distinct followed users. */
  lemma FollowingCountIsCardinality(s: DbState, u: int)
    requires DistinctKeys(s.follows, FollowPair)
    ensures CountFollowing(s, u) == |FollowingIds(s, u)|
  {
    var fs := s.follows;
    forall i, j | 0 <= i < j < |fs| && FollowerIs(u)(fs[i]) && FollowerIs(u)(fs[j])
      ensures FollowingOf(fs[i]) != FollowingOf(fs[j])
    {
      assert FollowPair(fs[i]) != FollowPair(fs[j]);
    }
    FilterCountDistinct(fs, FollowerIs(u), FollowingOf);
    var counted := KeysOf(fs, FollowerIs(u), FollowingOf);
    assert counted == FollowingIds(s, u) by {
      forall y
        ensures y in counted <==> y in FollowingIds(s, u)
      {
        if y in FollowingIds(s, u) {
          var x :| x in fs && x.followerId == u && x.followingId == y;
          assert FollowerIs(u)(x) && FollowingOf(x) == y;
        }
      }
    }
  }

  /** The likes count attached to a blog is the number of distinct users who like it. */
  lemma LikeCountIsCardinality(s: DbState, blogId: int)
    requires DistinctKeys(s.likes, LikePair)
    ensures CountLikes(s, blogId) == |LikerIds(s, blogId)|
  {
    var ls := s.likes;
    forall i, j | 0 <= i < j < |ls| && OnBlog(blogId)(ls[i]) && OnBlog(blogId)(ls[j])
      ensures LikerOf(ls[i]) != LikerOf(ls[j])
    {
      assert LikePair(ls[i]) != LikePair(ls[j]);
    }
    FilterCountDistinct(ls, OnBlog(blogId), LikerOf);
    var counted := KeysOf(ls, OnBlog(blogId), LikerOf);
    assert counted == LikerIds(s, blogId) by {
      forall y
        ensures y in counted <==> y in LikerIds(s, blogId)
      {
        if y in LikerIds(s, blogId) {
          var x :| x in ls && x.blogId == blogId && x.userId == y;
          assert OnBlog(blogId)(x) && LikerOf(x) == y;
        }
      }
    }
  }

  /** GetFollowers lists exactly the rows of the users who follow u. */
  lemma FollowersListed(s: DbState, u: int, v: UserRecord)
    requires Valid(s)
    ensures v in LinkedUsers(s.follows, s.users, FollowingIs(u), FollowerOf, FollowTime)
        <==> v.id in FollowerIds(s, u) && v.id in s.users && s.users[v.id] == v
  {
    LinkedUsersMembers(s.follows, s.users, FollowingIs(u), FollowerOf, FollowTime, v);
    if v.id in FollowerIds(s, u) && v.id in s.users && s.users[v.id] == v {
      var f :| f in s.follows && f.followingId == u && f.followerId == v.id;
      assert FollowingIs(u)(f) && FollowerOf(f) in s.users && s.users[FollowerOf(f)] == v;
    }
  }

  /** GetFollowing lists exactly the rows of the users u follows. */
  lemma FollowingListed(s: DbState, u: int, v: UserRecord)
    requires Valid(s)
    ensures v in LinkedUsers(s.follows, s.users, FollowerIs(u), FollowingOf, FollowTime)
        <==> v.id in FollowingIds(s, u) && v.id in s.users && s.users[v.id] == v
  {
    LinkedUsersMembers(s.follows, s.users, FollowerIs(u), FollowingOf, FollowTime, v);
    if v.id in FollowingIds(s, u) && v.id in s.users && s.users[v.id] == v {
      var f :| f in s.follows && f.followerId == u && f.followingId == v.id;
      assert FollowerIs(u)(f) && FollowingOf(f) in s.users && s.users[FollowingOf(f)] == v;
    }
  }

  /** GetLikes lists exactly the rows of the users who like the blog. */
  lemma LikersListed(s: DbState, blogId: int, v: UserRecord)
    requires Valid(s)
    ensures v in LinkedUsers(s.likes, s.users, OnBlog(blogId), LikerOf, LikeTime)
        <==> v.id in LikerIds(s, blogId) && v.id in s.users && s.users[v.id] == v
  {
    LinkedUsersMembers(s.likes, s.users, OnBlog(blogId), LikerOf, LikeTime, v);
    if v.id in LikerIds(s, blogId) && v.id in s.users && s.users[v.id] == v {
      var l :| l in s.likes && l.blogId == blogId && l.userId == v.id;
      assert OnBlog(blogId)(l) && LikerOf(l) in s.users && s.users[LikerOf(l)] == v;
    }
  }

  /** A created blog reads back with its title as the column stores it, its author's row and no likes. */
  lemma InsertBlogThenSelect(s: DbState, b: BlogRecord)
    requires Valid(s) && InsertBlog(s, b).1.Ok?
    ensures var (t, r) := InsertBlog(s, b);
      SelectBlog(t, r.value)
        == Ok(b.(id := r.value, title := Cut(b.title, TitleWidth), author := Some(s.users[b.authorId]),
                 likesCount := 0))
  {
    var (t, r) := InsertBlog(s, b);
    FilterKeepsNone(t.likes, OnBlog(r.value));
  }

  /** Liking twice leaves the same tables as liking once. */
  lemma LikeIdempotent(s: DbState, blogId: int, userId: int, t1: int, t2: int)
    requires InsertLike(s, blogId, userId, t1).1.None?
    ensures var s1 := InsertLike(s, blogId, userId, t1).0;
      InsertLike(s1, blogId, userId, t2) == (s1, None)
  {
  }

  /** Unliking a blog one does not like changes no table. */
  lemma {:induction false} UnlikeAbsentNoop(s: DbState, blogId: int, userId: int)
    requires s.online && !Likes(s, blogId, userId)
    ensures DeleteLike(s, blogId, userId) == (s, None)
  {
    forall l | l in s.likes
      ensures NotLike(blogId, userId)(l)
    {
    }
    FilterKeepsAll(s.likes, NotLike(blogId, userId));
  }

  /** A deleted blog is gone, and so are its likes. */
  lemma DeleteBlogRemovesLikes(s: DbState, id: int, authorId: int)
    requires DeleteBlog(s, id, authorId).1.None?
    ensures var t := DeleteBlog(s, id, authorId).0;
      && SelectBlog(t, id) == Fail(BlogNotFound)
      && CountLikes(t, id) == 0
      && forall userId :: !Likes(t, id, userId)
  {
    var t := DeleteBlog(s, id, authorId).0;
    FilterKeepsNone(t.likes, OnBlog(id));
  }

  /** Joining a row and projecting the stored columns gives the row back. */
  lemma RowOfJoined(s: DbState, row: BlogRow)
    requires row.authorId in s.users
    ensures RowOf(Joined(s, row)) == row
  {
  }

  /**
   * The listings hold exactly the blogs that GetByID returns, restricted to
   * the rows the WHERE clause keeps: a blog is listed with the same author
   * snapshot and likes count as a lookup by its id gives.
   */
  lemma BlogListMembers(s: DbState, keep: BlogRow -> bool, b: BlogRecord)
    requires Valid(s) && s.online
    ensures b in BlogList(s, keep) <==> SelectBlog(s, b.id) == Ok(b) && keep(RowOf(b))
  {
    var table := BlogsInTable(s.blogs, s.nextBlogId);
    var kept := Filter(table, keep);
    var joined := JoinAuthors(s, kept);
    var sorted := BlogList(s, keep);
    assert b in sorted <==> b in joined by {
      assert b in sorted <==> b in multiset(sorted);
      assert b in joined <==> b in multiset(joined);
    }
    if b in joined {
      var row :| row in kept && row.authorId in s.users && Joined(s, row) == b;
      var id :| 1 <= id < s.nextBlogId && id in s.blogs && s.blogs[id] == row;
      RowOfJoined(s, row);
    }
    if SelectBlog(s, b.id) == Ok(b) && keep(RowOf(b)) {
      var row := s.blogs[b.id];
      assert row in table;
      RowOfJoined(s, row);
      assert row in kept;
    }
  }

  /** Every page of GetAll and GetByAuthor is ordered newest first. */
  lemma {:induction false} BlogPagesNewestFirst(s: DbState, authorId: int, limit: int, offset: int)
    ensures SelectAllBlogs(s, limit, offset).Ok? ==> NewestFirst(SelectAllBlogs(s, limit, offset).value, BlogTime)
    ensures SelectBlogsByAuthor(s, authorId, limit, offset).Ok?
        ==> NewestFirst(SelectBlogsByAuthor(s, authorId, limit, offset).value, BlogTime)
  {
    if s.online && limit >= 0 && offset >= 0 {
      SortIsNewestFirst(JoinAuthors(s, Filter(BlogsInTable(s.blogs, s.nextBlogId), AnyBlog())), BlogTime);
      PageNewestFirst(BlogList(s, AnyBlog()), BlogTime, limit, offset);
      SortIsNewestFirst(JoinAuthors(s, Filter(BlogsInTable(s.blogs, s.nextBlogId), ByAuthor(authorId))), BlogTime);
      PageNewestFirst(BlogList(s, ByAuthor(authorId)), BlogTime, limit, offset);
    }
  }

  /** GetByAuthor holds only the author's blogs. */
  lemma ByAuthorOnlyAuthor(s: DbState, authorId: int, b: BlogRecord)
    requires Valid(s) && s.online
    ensures b in BlogList(s, ByAuthor(authorId)) ==> b.authorId == authorId
  {
    BlogListMembers(s, ByAuthor(authorId), b);
  }
}
