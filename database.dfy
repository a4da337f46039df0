/**
 * The PostgreSQL repositories of internal/infrastructure/database. A
 * Database object holds the tables; each repository method runs its
 * statement as the matching function of module Store and commits the
 * tables that function computes. Rows come back as fresh User and Blog
 * objects, one per row, as the Go code scans them into new structs.
 */
module Database {
  import opened Wrappers
  import opened Errors
  import opened Entity
  import opened Store

  class Database {
    var online: bool
    var users: map<int, UserRecord>
    var blogs: map<int, BlogRow>
    var follows: seq<FollowRow>
    var likes: seq<LikeRow>
    var nextUserId: int
    var nextBlogId: int

    function State(): DbState
      reads this
    {
      DbState(online, users, blogs, follows, likes, nextUserId, nextBlogId)
    }

    /** The schema's constraints hold. */
    ghost predicate Valid()
      reads this
    {
      Store.Valid(State())
    }

    /** A freshly migrated database, with the server answering or not. */
    constructor (online: bool)
      ensures State() == Empty.(online := online)
      ensures Valid()
    {
      this.online := online;
      users := map[];
      blogs := map[];
      follows := [];
      likes := [];
      nextUserId := 1;
      nextBlogId := 1;
    }

    /** The effect of one statement: the tables become s. */
    method Commit(s: DbState)
      modifies this
      ensures State() == s
    {
      online := s.online;
      users := s.users;
      blogs := s.blogs;
      follows := s.follows;
      likes := s.likes;
      nextUserId := s.nextUserId;
      nextBlogId := s.nextBlogId;
    }
  }

  /** The records the objects hold, in order. */
  function UserRecords(users: seq<User>): (r: seq<UserRecord>)
    reads users
    ensures |r| == |users|
    ensures forall i :: 0 <= i < |r| ==> r[i] == users[i].Record()
  {
    if users == [] then [] else [users[0].Record()] + UserRecords(users[1..])
  }

  function BlogRecords(blogs: seq<Blog>): (r: seq<BlogRecord>)
    reads blogs
    ensures |r| == |blogs|
    ensures forall i :: 0 <= i < |r| ==> r[i] == blogs[i].Record()
  {
    if blogs == [] then [] else [blogs[0].Record()] + BlogRecords(blogs[1..])
  }

  /** The rows.Next()/rows.Scan loop of the user listings: one new User per row. */
  method ScanUsers(rows: seq<UserRecord>) returns (users: seq<User>)
    ensures UserRecords(users) == rows
    ensures forall i :: 0 <= i < |users| ==> fresh(users[i])
  {
    users := [];
    var i := 0;
    while i < |rows|
      invariant 0 <= i <= |rows|
      invariant |users| == i
      invariant forall j :: 0 <= j < i ==> users[j].Record() == rows[j]
      invariant forall j :: 0 <= j < |users| ==> fresh(users[j])
    {
      var user := new User.FromRecord(rows[i]);
      users := users + [user];
      i := i + 1;
    }
  }

  /** The same loop for the blog listings: one new Blog per joined row. */
  method ScanBlogs(rows: seq<BlogRecord>) returns (blogs: seq<Blog>)
    ensures BlogRecords(blogs) == rows
    ensures forall i :: 0 <= i < |blogs| ==> fresh(blogs[i])
  {
    blogs := [];
    var i := 0;
    while i < |rows|
      invariant 0 <= i <= |rows|
      invariant |blogs| == i
      invariant forall j :: 0 <= j < i ==> blogs[j].Record() == rows[j]
      invariant forall j :: 0 <= j < |blogs| ==> fresh(blogs[j])
    {
      var blog := new Blog.FromRecord(rows[i]);
      blogs := blogs + [blog];
      i := i + 1;
    }
  }

  class UserRepository {
    const db: Database

    constructor (db: Database)
      ensures this.db == db
    {
      this.db := db;
    }

    /** INSERT ... RETURNING id, scanned into user.ID. */
    method Create(user: User) returns (err: Option<Err>)
      modifies db, user
      ensures var r := InsertUser(old(db.State()), old(user.Record()));
        && db.State() == r.0
        && (r.1.Ok? ==> err.None? && user.Record() == old(user.Record()).(id := r.1.value))
        && (r.1.Fail? ==> err == Some(r.1.error) && user.Record() == old(user.Record()))
      ensures old(db.Valid()) ==> db.Valid()
    {
      var r := InsertUser(db.State(), user.Record());
      db.Commit(r.0);
      if r.1.Fail? {
        return Some(r.1.error);
      }
      user.id := r.1.value;
      err := None;
    }

    method GetByID(id: int) returns (user: User?, err: Option<Err>)
      ensures match SelectUser(db.State(), id)
        case Ok(u) => err.None? && user != null && fresh(user) && user.Record() == u
        case Fail(e) => err == Some(e) && user == null
    {
      var r := SelectUser(db.State(), id);
      if r.Fail? {
        return null, Some(r.error);
      }
      user := new User.FromRecord(r.value);
      err := None;
    }

    method GetByUsername(username: string) returns (user: User?, err: Option<Err>)
      ensures match SelectUserByUsername(db.State(), username)
        case Ok(u) => err.None? && user != null && fresh(user) && user.Record() == u
        case Fail(e) => err == Some(e) && user == null
    {
      var r := SelectUserByUsername(db.State(), username);
      if r.Fail? {
        return null, Some(r.error);
      }
      user := new User.FromRecord(r.value);
      err := None;
    }

    method Update(user: User) returns (err: Option<Err>)
      modifies db
      ensures (db.State(), err) == UpdateUser(old(db.State()), user.Record())
      ensures old(db.Valid()) ==> db.Valid()
    {
      var r := UpdateUser(db.State(), user.Record());
      db.Commit(r.0);
      err := r.1;
    }

    /** NOW() is the parameter now. */
    method Follow(followerId: int, followingId: int, now: int) returns (err: Option<Err>)
      modifies db
      ensures (db.State(), err) == InsertFollow(old(db.State()), followerId, followingId, now)
      ensures old(db.Valid()) ==> db.Valid()
    {
      ghost var before := db.State();
      var r := InsertFollow(db.State(), followerId, followingId, now);
      db.Commit(r.0);
      err := r.1;
      if Store.Valid(before) {
        InsertFollowKeepsValid(before, followerId, followingId, now);
      }
    }

    method Unfollow(followerId: int, followingId: int) returns (err: Option<Err>)
      modifies db
      ensures (db.State(), err) == DeleteFollow(old(db.State()), followerId, followingId)
      ensures old(db.Valid()) ==> db.Valid()
    {
      ghost var before := db.State();
      var r := DeleteFollow(db.State(), followerId, followingId);
      db.Commit(r.0);
      err := r.1;
      if Store.Valid(before) {
        DeleteFollowKeepsValid(before, followerId, followingId);
      }
    }

    method GetFollowers(userId: int, limit: int, offset: int) returns (users: seq<User>, err: Option<Err>)
      ensures match SelectFollowers(db.State(), userId, limit, offset)
        case Ok(rows) => err.None? && UserRecords(users) == rows
                         && forall i :: 0 <= i < |users| ==> fresh(users[i])
        case Fail(e) => err == Some(e) && users == []
    {
      var r := SelectFollowers(db.State(), userId, limit, offset);
      if r.Fail? {
        return [], Some(r.error);
      }
      users := ScanUsers(r.value);
      err := None;
    }

    method GetFollowing(userId: int, limit: int, offset: int) returns (users: seq<User>, err: Option<Err>)
      ensures match SelectFollowing(db.State(), userId, limit, offset)
        case Ok(rows) => err.None? && UserRecords(users) == rows
                         && forall i :: 0 <= i < |users| ==> fresh(users[i])
        case Fail(e) => err == Some(e) && users == []
    {
      var r := SelectFollowing(db.State(), userId, limit, offset);
      if r.Fail? {
        return [], Some(r.error);
      }
      users := ScanUsers(r.value);
      err := None;
    }

    method IsFollowing(followerId: int, followingId: int) returns (exists_: bool, err: Option<Err>)
      ensures err.None? <==> db.online
      ensures exists_ <==> db.online && Follows(db.State(), followerId, followingId)
    {
      var r := FollowExists(db.State(), followerId, followingId);
      if r.Fail? {
        return false, Some(r.error);
      }
      exists_, err := r.value, None;
    }

    method GetStats(userId: int) returns (stats: Option<UserStats>, err: Option<Err>)
      ensures match CountStats(db.State(), userId)
        case Ok(st) => err.None? && stats == Some(st)
        case Fail(e) => err == Some(e) && stats.None?
    {
      var r := CountStats(db.State(), userId);
      if r.Fail? {
        return None, Some(r.error);
      }
      stats, err := Some(r.value), None;
    }
  }

  class BlogRepository {
    const db: Database

    constructor (db: Database)
      ensures this.db == db
    {
      this.db := db;
    }

    /** INSERT ... RETURNING id, scanned into blog.ID. */
    method Create(blog: Blog) returns (err: Option<Err>)
      modifies db, blog
      ensures var r := InsertBlog(old(db.State()), old(blog.Record()));
        && db.State() == r.0
        && (r.1.Ok? ==> err.None? && blog.Record() == old(blog.Record()).(id := r.1.value))
        && (r.1.Fail? ==> err == Some(r.1.error) && blog.Record() == old(blog.Record()))
      ensures old(db.Valid()) ==> db.Valid()
    {
      var r := InsertBlog(db.State(), blog.Record());
      db.Commit(r.0);
      if r.1.Fail? {
        return Some(r.1.error);
      }
      blog.id := r.1.value;
      err := None;
    }

    method GetByID(id: int) returns (blog: Blog?, err: Option<Err>)
      ensures match SelectBlog(db.State(), id)
        case Ok(b) => err.None? && blog != null && fresh(blog) && blog.Record() == b
        case Fail(e) => err == Some(e) && blog == null
    {
      var r := SelectBlog(db.State(), id);
      if r.Fail? {
        return null, Some(r.error);
      }
      blog := new Blog.FromRecord(r.value);
      err := None;
    }

    method GetAll(limit: int, offset: int) returns (blogs: seq<Blog>, err: Option<Err>)
      ensures match SelectAllBlogs(db.State(), limit, offset)
        case Ok(rows) => err.None? && BlogRecords(blogs) == rows
                         && forall i :: 0 <= i < |blogs| ==> fresh(blogs[i])
        case Fail(e) => err == Some(e) && blogs == []
    {
      var r := SelectAllBlogs(db.State(), limit, offset);
      if r.Fail? {
        return [], Some(r.error);
      }
      blogs := ScanBlogs(r.value);
      err := None;
    }

    method GetByAuthor(authorId: int, limit: int, offset: int) returns (blogs: seq<Blog>, err: Option<Err>)
      ensures match SelectBlogsByAuthor(db.State(), authorId, limit, offset)
        case Ok(rows) => err.None? && BlogRecords(blogs) == rows
                         && forall i :: 0 <= i < |blogs| ==> fresh(blogs[i])
        case Fail(e) => err == Some(e) && blogs == []
    {
      var r := SelectBlogsByAuthor(db.State(), authorId, limit, offset);
      if r.Fail? {
        return [], Some(r.error);
      }
      blogs := ScanBlogs(r.value);
      err := None;
    }

    method Update(blog: Blog) returns (err: Option<Err>)
      modifies db
      ensures (db.State(), err) == UpdateBlog(old(db.State()), blog.Record())
      ensures old(db.Valid()) ==> db.Valid()
    {
      var r := UpdateBlog(db.State(), blog.Record());
      db.Commit(r.0);
      err := r.1;
    }

    method Delete(id: int, authorId: int) returns (err: Option<Err>)
      modifies db
      ensures (db.State(), err) == DeleteBlog(old(db.State()), id, authorId)
      ensures old(db.Valid()) ==> db.Valid()
    {
      ghost var before := db.State();
      var r := DeleteBlog(db.State(), id, authorId);
      db.Commit(r.0);
      err := r.1;
      if Store.Valid(before) {
        DeleteBlogKeepsValid(before, id, authorId);
      }
    }

    /** NOW() is the parameter now. */
    method Like(blogId: int, userId: int, now: int) returns (err: Option<Err>)
      modifies db
      ensures (db.State(), err) == InsertLike(old(db.State()), blogId, userId, now)
      ensures old(db.Valid()) ==> db.Valid()
    {
      ghost var before := db.State();
      var r := InsertLike(db.State(), blogId, userId, now);
      db.Commit(r.0);
      err := r.1;
      if Store.Valid(before) {
        InsertLikeKeepsValid(before, blogId, userId, now);
      }
    }

    method Unlike(blogId: int, userId: int) returns (err: Option<Err>)
      modifies db
      ensures (db.State(), err) == DeleteLike(old(db.State()), blogId, userId)
      ensures old(db.Valid()) ==> db.Valid()
    {
      ghost var before := db.State();
      var r := DeleteLike(db.State(), blogId, userId);
      db.Commit(r.0);
      err := r.1;
      if Store.Valid(before) {
        DeleteLikeKeepsValid(before, blogId, userId);
      }
    }

    method GetLikes(blogId: int, limit: int, offset: int) returns (users: seq<User>, err: Option<Err>)
      ensures match SelectLikers(db.State(), blogId, limit, offset)
        case Ok(rows) => err.None? && UserRecords(users) == rows
                         && forall i :: 0 <= i < |users| ==> fresh(users[i])
        case Fail(e) => err == Some(e) && users == []
    {
      var r := SelectLikers(db.State(), blogId, limit, offset);
      if r.Fail? {
        return [], Some(r.error);
      }
      users := ScanUsers(r.value);
      err := None;
    }

    method IsLikedBy(blogId: int, userId: int) returns (liked: bool, err: Option<Err>)
      ensures err.None? <==> db.online
      ensures liked <==> db.online && Likes(db.State(), blogId, userId)
    {
      var r := LikeExists(db.State(), blogId, userId);
      if r.Fail? {
        return false, Some(r.error);
      }
      liked, err := r.value, None;
    }
  }
}
