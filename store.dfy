/**
 * The four tables created by internal/infrastructure/database/postgres.go
 * and the SQL statements that UserRepository and BlogRepository run on
 * them, as pure functions from the tables' contents to the new contents
 * and the Go-level result. The functions already do what the repository
 * code does with the driver's answer: sql.ErrNoRows and "no row deleted"
 * become the domain's not-found errors, every other failure is wrapped
 * into StoreError.
 *
 * Table order (the order in which rows come back before ORDER BY) is
 * ascending id for users and blogs and insertion order for the link tables.
 */
module Store {
  import opened Wrappers
  import opened Errors
  import opened Entity
  import opened Paging

  // Column widths of the schema.
  const UsernameWidth := 50
  const EmailWidth := 255
  const DisplayNameWidth := 100
  const ProfileImageWidth := 500
  const TitleWidth := 200

  /** A row of `blogs`: the author is a foreign key, not a copy. */
  datatype BlogRow = BlogRow(
    id: int,
    title: string,
    description: string,
    body: string,
    authorId: int,
    createdAt: int,
    updatedAt: int)

  /** A row of `followers`: followerId follows followingId since createdAt. */
  datatype FollowRow = FollowRow(followerId: int, followingId: int, createdAt: int)

  /** A row of `likes`. */
  datatype LikeRow = LikeRow(blogId: int, userId: int, createdAt: int)

  /**
   * The database as the repositories see it: whether the server answers,
   * the four tables, and the next values of the two SERIAL sequences.
   */
  datatype DbState = DbState(
    online: bool,
    users: map<int, UserRecord>,
    blogs: map<int, BlogRow>,
    follows: seq<FollowRow>,
    likes: seq<LikeRow>,
    nextUserId: int,
    nextBlogId: int)

  function FollowPair(f: FollowRow): (int, int) {
    (f.followerId, f.followingId)
  }

  function LikePair(l: LikeRow): (int, int) {
    (l.blogId, l.userId)
  }

  /**
   * The constraints of the schema: primary keys below the sequences,
   * UNIQUE username and email, the foreign keys, CHECK (follower_id !=
   * following_id), UNIQUE(follower_id, following_id) and UNIQUE(blog_id,
   * user_id).
   */
  ghost predicate Valid(s: DbState) {
    && 1 <= s.nextUserId && 1 <= s.nextBlogId
    && (forall id :: id in s.users ==> s.users[id].id == id && 1 <= id < s.nextUserId)
    && (forall a, b :: a in s.users && b in s.users && a != b ==>
          s.users[a].username != s.users[b].username && s.users[a].email != s.users[b].email)
    && (forall id :: id in s.blogs ==>
          s.blogs[id].id == id && 1 <= id < s.nextBlogId && s.blogs[id].authorId in s.users)
    && (forall f :: f in s.follows ==>
          f.followerId in s.users && f.followingId in s.users && f.followerId != f.followingId)
    && DistinctKeys(s.follows, FollowPair)
    && (forall l :: l in s.likes ==> l.blogId in s.blogs && l.userId in s.users)
    && DistinctKeys(s.likes, LikePair)
  }

  /** The tables right after the migration: empty, both sequences at 1. */
  const Empty: DbState := DbState(true, map[], map[], [], [], 1, 1)

  lemma EmptyValid()
    ensures Valid(Empty)
  {
  }

  /** What every statement reports when the server does not answer. */
  const Down: Err := StoreError(Unreachable)

  // ---------------------------------------------------------------- users

  /** Every character of v is a space. */
  predicate AllSpaces(v: string) {
    forall i :: 0 <= i < |v| ==> v[i] == ' '
  }

  /**
   * A VARCHAR(n) column takes v: a longer value is refused unless every
   * character beyond the n-th is a space.
   */
  predicate Fits(v: string, n: nat) {
    |v| <= n || AllSpaces(v[n..])
  }

  /** What a VARCHAR(n) column stores for a value it takes: the value cut to n characters. */
  function Cut(v: string, n: nat): (r: string)
    ensures |r| <= n && r <= v
    ensures |v| <= n ==> r == v
    ensures Fits(v, n) ==> v == r + v[|r|..] && AllSpaces(v[|r|..])
  {
    if |v| <= n then v else v[..n]
  }

  /** The columns INSERT INTO users writes that have a width take u's values. */
  predicate UserFits(u: UserRecord) {
    && Fits(u.username, UsernameWidth) && Fits(u.email, EmailWidth)
    && Fits(u.displayName, DisplayNameWidth) && Fits(u.profileImage, ProfileImageWidth)
  }

  /** The columns UPDATE users writes that have a width take u's values. */
  predicate ProfileFits(u: UserRecord) {
    Fits(u.displayName, DisplayNameWidth) && Fits(u.profileImage, ProfileImageWidth)
  }

  /** No value of u is longer than its column. */
  predicate UserWithinWidths(u: UserRecord) {
    && |u.username| <= UsernameWidth && |u.email| <= EmailWidth
    && |u.displayName| <= DisplayNameWidth && |u.profileImage| <= ProfileImageWidth
  }

  /** The row INSERT INTO users stores for u: each VARCHAR value cut to its width. */
  function UserAsStored(u: UserRecord): (r: UserRecord)
    ensures r.id == u.id && r.bio == u.bio && r.createdAt == u.createdAt && r.updatedAt == u.updatedAt
    ensures UserWithinWidths(r)
    ensures UserWithinWidths(u) ==> r == u
  {
    u.(username := Cut(u.username, UsernameWidth), email := Cut(u.email, EmailWidth),
       displayName := Cut(u.displayName, DisplayNameWidth),
       profileImage := Cut(u.profileImage, ProfileImageWidth))
  }

  /** Some existing row already holds u's username or u's email. */
  predicate Taken(s: DbState, u: UserRecord) {
    exists id :: id in s.users && (s.users[id].username == u.username || s.users[id].email == u.email)
  }

  /**
   * INSERT INTO users ... RETURNING id: the row gets the next value of the
   * sequence as its id. Values too long for their column are refused before
   * the unique indexes are consulted; values whose excess is only spaces
   * are stored cut, and the unique indexes see the cut values.
   */
  function InsertUser(s: DbState, u: UserRecord): (r: (DbState, Result<int>))
    ensures Valid(s) ==> Valid(r.0)
    ensures r.1.Ok? <==> s.online && UserFits(u) && !Taken(s, UserAsStored(u))
    ensures r.1.Ok? ==> Valid(s) ==> r.1.value !in s.users
    ensures r.1.Ok? ==> r.0 == s.(users := s.users[r.1.value := UserAsStored(u).(id := r.1.value)],
                                  nextUserId := r.1.value + 1)
    ensures r.1.Fail? ==> r.0 == s && r.1.error.StoreError?
  {
    if !s.online then (s, Fail(Down))
    else if !UserFits(u) then (s, Fail(StoreError(ValueTooLong)))
    else if Taken(s, UserAsStored(u)) then (s, Fail(StoreError(UniqueViolation)))
    else
      var id := s.nextUserId;
      (s.(users := s.users[id := UserAsStored(u).(id := id)], nextUserId := id + 1), Ok(id))
  }

  /** SELECT ... FROM users WHERE id = $1. */
  function SelectUser(s: DbState, id: int): Result<UserRecord> {
    if !s.online then Fail(Down)
    else if id in s.users then Ok(s.users[id])
    else Fail(UserNotFound)
  }

  function NamedAs(username: string): UserRecord -> bool {
    (u: UserRecord) => u.username == username
  }

  /** The first row in table order, among ids 1 .. n-1, that satisfies matches. */
  function FindUser(users: map<int, UserRecord>, matches: UserRecord -> bool, n: int): (r: Option<UserRecord>)
    decreases n
    ensures r.Some? ==> exists id :: 1 <= id < n && id in users && users[id] == r.value && matches(r.value)
    ensures r.None? ==> forall id :: 1 <= id < n && id in users ==> !matches(users[id])
  {
    if n <= 1 then None
    else
      match FindUser(users, matches, n - 1)
      case Some(u) => Some(u)
      case None => if n - 1 in users && matches(users[n - 1]) then Some(users[n - 1]) else None
  }

  /** SELECT ... FROM users WHERE username = $1. */
  function SelectUserByUsername(s: DbState, username: string): Result<UserRecord> {
    if !s.online then Fail(Down)
    else
      match FindUser(s.users, NamedAs(username), s.nextUserId)
      case Some(u) => Ok(u)
      case None => Fail(UserNotFound)
  }

  /**
   * UPDATE users SET display_name, bio, profile_image, updated_at WHERE
   * id = $5. No matching row is not an error; the widths are only checked
   * on a row that is updated, and values whose excess is only spaces are
   * stored cut.
   */
  function UpdateUser(s: DbState, u: UserRecord): (r: (DbState, Option<Err>))
    ensures Valid(s) ==> Valid(r.0)
    ensures r.0.users.Keys == s.users.Keys
    ensures r.0 == s || r.1.None?
    ensures r.1.Some? ==> r.1.value.StoreError?
    ensures r.1.None? <==> s.online && (u.id in s.users ==> ProfileFits(u))
    ensures u.id !in s.users ==> r.0 == s
    ensures r.0.blogs == s.blogs && r.0.follows == s.follows && r.0.likes == s.likes
    ensures forall id :: id in s.users && id != u.id ==> r.0.users[id] == s.users[id]
    ensures u.id in s.users ==>
      var was, now := s.users[u.id], r.0.users[u.id];
      && now.id == was.id && now.username == was.username && now.email == was.email
      && now.createdAt == was.createdAt
      && (r.1.None? ==> now.displayName == Cut(u.displayName, DisplayNameWidth) && now.bio == u.bio
                        && now.profileImage == Cut(u.profileImage, ProfileImageWidth)
                        && now.updatedAt == u.updatedAt)
  {
    if !s.online then (s, Some(Down))
    else if u.id !in s.users then (s, None)
    else if !ProfileFits(u) then
      (s, Some(StoreError(ValueTooLong)))
    else
      var row := s.users[u.id].(displayName := Cut(u.displayName, DisplayNameWidth), bio := u.bio,
                       profileImage := Cut(u.profileImage, ProfileImageWidth), updatedAt := u.updatedAt);
      (s.(users := s.users[u.id := row]), None)
  }

  // ------------------------------------------------------------- followers

  predicate Follows(s: DbState, followerId: int, followingId: int) {
    exists f :: f in s.follows && FollowPair(f) == (followerId, followingId)
  }

  /**
   * INSERT INTO followers ... ON CONFLICT (follower_id, following_id) DO
   * NOTHING: the CHECK constraint is evaluated on the new row first, an
   * existing pair then makes the statement a no-op, and only a row that is
   * really inserted has its foreign keys checked.
   */
  function InsertFollow(s: DbState, followerId: int, followingId: int, now: int): (r: (DbState, Option<Err>))
    ensures r.1.None? <==> s.online && followerId != followingId
                           && (Follows(s, followerId, followingId)
                               || (followerId in s.users && followingId in s.users))
    ensures r.1.None? ==> Follows(r.0, followerId, followingId)
    ensures forall a, b :: (a, b) != (followerId, followingId) ==> (Follows(r.0, a, b) <==> Follows(s, a, b))
    ensures r.1.Some? ==> r.0 == s
    ensures r.0.users == s.users && r.0.blogs == s.blogs && r.0.likes == s.likes
  {
    if !s.online then (s, Some(Down))
    else if followerId == followingId then (s, Some(StoreError(CheckViolation)))
    else if Follows(s, followerId, followingId) then (s, None)
    else if followerId !in s.users || followingId !in s.users then (s, Some(StoreError(ForeignKeyViolation)))
    else
      var row := FollowRow(followerId, followingId, now);
      assert row in s.follows + [row] && FollowPair(row) == (followerId, followingId);
      (s.(follows := s.follows + [row]), None)
  }

  function NotPair(followerId: int, followingId: int): FollowRow -> bool {
    (f: FollowRow) => FollowPair(f) != (followerId, followingId)
  }

  /** DELETE FROM followers WHERE follower_id = $1 AND following_id = $2. */
  function DeleteFollow(s: DbState, followerId: int, followingId: int): (r: (DbState, Option<Err>))
    ensures r.1.None? <==> s.online
    ensures r.1.None? ==> !Follows(r.0, followerId, followingId)
    ensures forall a, b :: (a, b) != (followerId, followingId) ==> (Follows(r.0, a, b) <==> Follows(s, a, b))
    ensures r.0.users == s.users && r.0.blogs == s.blogs && r.0.likes == s.likes
  {
    if !s.online then (s, Some(Down))
    else
      (s.(follows := Filter(s.follows, NotPair(followerId, followingId))), None)
  }

  /** SELECT EXISTS(SELECT 1 FROM followers WHERE follower_id = $1 AND following_id = $2). */
  function FollowExists(s: DbState, followerId: int, followingId: int): (r: Result<bool>)
    ensures r.Ok? <==> s.online
    ensures r.Ok? ==> (r.value <==> Follows(s, followerId, followingId))
  {
    if !s.online then Fail(Down) else Ok(Follows(s, followerId, followingId))
  }

  function FollowerOf(f: FollowRow): int { f.followerId }
  function FollowingOf(f: FollowRow): int { f.followingId }
  function FollowTime(f: FollowRow): int { f.createdAt }
  function LikerOf(l: LikeRow): int { l.userId }
  function LikeTime(l: LikeRow): int { l.createdAt }

  /** The link rows whose followingId is u: u's followers. */
  function FollowingIs(u: int): FollowRow -> bool {
    (f: FollowRow) => f.followingId == u
  }

  /** The link rows whose followerId is u: whom u follows. */
  function FollowerIs(u: int): FollowRow -> bool {
    (f: FollowRow) => f.followerId == u
  }

  /** The ids of the users who follow u. */
  ghost function FollowerIds(s: DbState, u: int): set<int> {
    set f | f in s.follows && f.followingId == u :: f.followerId
  }

  /** The ids of the users u follows. */
  ghost function FollowingIds(s: DbState, u: int): set<int> {
    set f | f in s.follows && f.followerId == u :: f.followingId
  }

  /**
   * FROM users u INNER JOIN <links> ON u.id = <ref>: the kept link rows
   * whose referenced user exists, each paired with its sort time and the
   * user's row.
   */
  function JoinUsers<R>(rows: seq<R>, users: map<int, UserRecord>, keep: R -> bool,
                        ref: R -> int, time: R -> int): (r: seq<(int, UserRecord)>)
    ensures |r| <= |rows|
  {
    if rows == [] then []
    else
      var x := rows[0];
      (if keep(x) && ref(x) in users then [(time(x), users[ref(x)])] else [])
      + JoinUsers(rows[1..], users, keep, ref, time)
  }

  lemma {:induction false} JoinUsersMembers<R>(rows: seq<R>, users: map<int, UserRecord>, keep: R -> bool,
                                              ref: R -> int, time: R -> int, p: (int, UserRecord))
    ensures p in JoinUsers(rows, users, keep, ref, time)
        <==> exists x :: x in rows && keep(x) && ref(x) in users && p == (time(x), users[ref(x)])
  {
    if rows != [] {
      JoinUsersMembers(rows[1..], users, keep, ref, time, p);
      assert forall x :: x in rows <==> x == rows[0] || x in rows[1..];
    }
  }

  function PairTime(p: (int, UserRecord)): int { p.0 }

  function Users(ps: seq<(int, UserRecord)>): (r: seq<UserRecord>)
    ensures |r| == |ps|
    ensures forall i :: 0 <= i < |r| ==> r[i] == ps[i].1
  {
    if ps == [] then [] else [ps[0].1] + Users(ps[1..])
  }

  /** ... ORDER BY <link>.created_at DESC, all rows. */
  function LinkedUsers<R>(rows: seq<R>, users: map<int, UserRecord>, keep: R -> bool,
                          ref: R -> int, time: R -> int): seq<UserRecord>
  {
    Users(SortNewestFirst(JoinUsers(rows, users, keep, ref, time), PairTime))
  }

  /** A user is listed exactly when a kept link row refers to that user's row. */
  lemma LinkedUsersMembers<R>(rows: seq<R>, users: map<int, UserRecord>, keep: R -> bool,
                              ref: R -> int, time: R -> int, v: UserRecord)
    ensures v in LinkedUsers(rows, users, keep, ref, time)
        <==> exists x :: x in rows && keep(x) && ref(x) in users && users[ref(x)] == v
  {
    var joined := JoinUsers(rows, users, keep, ref, time);
    var sorted := SortNewestFirst(joined, PairTime);
    var listed := Users(sorted);
    assert forall p :: p in sorted <==> p in joined by {
      forall p
        ensures p in sorted <==> p in joined
      {
        assert p in sorted <==> p in multiset(sorted);
        assert p in joined <==> p in multiset(joined);
      }
    }
    if v in listed {
      var i :| 0 <= i < |listed| && listed[i] == v;
      var p := sorted[i];
      JoinUsersMembers(rows, users, keep, ref, time, p);
    }
    if exists x :: x in rows && keep(x) && ref(x) in users && users[ref(x)] == v {
      var x :| x in rows && keep(x) && ref(x) in users && users[ref(x)] == v;
      var p := (time(x), v);
      JoinUsersMembers(rows, users, keep, ref, time, p);
      var i :| 0 <= i < |sorted| && sorted[i] == p;
      assert listed[i] == v;
    }
  }

  /** Rejects what PostgreSQL rejects in LIMIT $n OFFSET $m. */
  function Paged<T>(s: DbState, rows: seq<T>, limit: int, offset: int): (r: Result<seq<T>>)
    ensures r.Ok? <==> s.online && limit >= 0 && offset >= 0
    ensures r.Ok? ==> r.value == Page(rows, limit, offset)
  {
    if !s.online then Fail(Down)
    else if limit < 0 || offset < 0 then Fail(StoreError(NegativeLimitOrOffset))
    else Ok(Page(rows, limit, offset))
  }

  /**
   * SELECT u.* FROM users u INNER JOIN followers f ON u.id = f.follower_id
   * WHERE f.following_id = $1 ORDER BY f.created_at DESC LIMIT $2 OFFSET $3.
   */
  function SelectFollowers(s: DbState, u: int, limit: int, offset: int): Result<seq<UserRecord>> {
    Paged(s, LinkedUsers(s.follows, s.users, FollowingIs(u), FollowerOf, FollowTime), limit, offset)
  }

  /** The same join on f.following_id, WHERE f.follower_id = $1. */
  function SelectFollowing(s: DbState, u: int, limit: int, offset: int): Result<seq<UserRecord>> {
    Paged(s, LinkedUsers(s.follows, s.users, FollowerIs(u), FollowingOf, FollowTime), limit, offset)
  }

  function CountFollowers(s: DbState, u: int): nat {
    |Filter(s.follows, FollowingIs(u))|
  }

  function CountFollowing(s: DbState, u: int): nat {
    |Filter(s.follows, FollowerIs(u))|
  }

  function CountBlogs(s: DbState, u: int): nat {
    |set id | id in s.blogs && s.blogs[id].authorId == u|
  }

  /** The three SELECT COUNT(*) statements of UserRepository.GetStats. */
  function CountStats(s: DbState, u: int): Result<UserStats> {
    if !s.online then Fail(Down)
    else Ok(UserStats(CountFollowers(s, u), CountFollowing(s, u), CountBlogs(s, u)))
  }

  // ----------------------------------------------------------------- blogs

  /**
   * INSERT INTO blogs ... RETURNING id: the title's width first, then the
   * author's foreign key; a title whose excess is only spaces is stored cut.
   */
  function InsertBlog(s: DbState, b: BlogRecord): (r: (DbState, Result<int>))
    ensures Valid(s) ==> Valid(r.0)
    ensures r.1.Ok? <==> s.online && Fits(b.title, TitleWidth) && b.authorId in s.users
    ensures r.1.Ok? ==> Valid(s) ==> r.1.value !in s.blogs
    ensures r.1.Ok? ==> r.0 == s.(blogs := s.blogs[r.1.value := BlogAsStored(b).(id := r.1.value)],
                                  nextBlogId := r.1.value + 1)
    ensures r.1.Fail? ==> r.0 == s && r.1.error.StoreError?
  {
    if !s.online then (s, Fail(Down))
    else if !Fits(b.title, TitleWidth) then (s, Fail(StoreError(ValueTooLong)))
    else if b.authorId !in s.users then (s, Fail(StoreError(ForeignKeyViolation)))
    else
      var id := s.nextBlogId;
      (s.(blogs := s.blogs[id := BlogAsStored(b).(id := id)], nextBlogId := id + 1), Ok(id))
  }

  /** The columns of a blog that the table stores. */
  function RowOf(b: BlogRecord): BlogRow {
    BlogRow(b.id, b.title, b.description, b.body, b.authorId, b.createdAt, b.updatedAt)
  }

  /** The row INSERT INTO blogs stores for b: its columns, the title cut to the column's width. */
  function BlogAsStored(b: BlogRecord): (r: BlogRow)
    ensures |r.title| <= TitleWidth
    ensures |b.title| <= TitleWidth ==> r == RowOf(b)
    ensures r == RowOf(b).(title := r.title)
  {
    RowOf(b).(title := Cut(b.title, TitleWidth))
  }

  function OnBlog(blogId: int): LikeRow -> bool {
    (l: LikeRow) => l.blogId == blogId
  }

  /** (SELECT COUNT(*) FROM likes WHERE blog_id = b.id). */
  function CountLikes(s: DbState, blogId: int): nat {
    |Filter(s.likes, OnBlog(blogId))|
  }

  /** The ids of the users who like the blog. */
  ghost function LikerIds(s: DbState, blogId: int): set<int> {
    set l | l in s.likes && l.blogId == blogId :: l.userId
  }

  /** A blog row joined with its author's row and its number of likes. */
  function Joined(s: DbState, row: BlogRow): BlogRecord
    requires row.authorId in s.users
  {
    BlogRecord(row.id, row.title, row.description, row.body, row.authorId,
               Some(s.users[row.authorId]), CountLikes(s, row.id), row.createdAt, row.updatedAt)
  }

  /**
   * SELECT ... FROM blogs b INNER JOIN users u ON b.author_id = u.id
   * WHERE b.id = $1.
   */
  function SelectBlog(s: DbState, id: int): Result<BlogRecord> {
    if !s.online then Fail(Down)
    else if id in s.blogs && s.blogs[id].authorId in s.users then Ok(Joined(s, s.blogs[id]))
    else Fail(BlogNotFound)
  }

  /** The rows with ids 1 .. n-1 in id order. */
  function BlogsInTable(blogs: map<int, BlogRow>, n: int): (r: seq<BlogRow>)
    decreases n
    ensures forall b :: b in r <==> exists id :: 1 <= id < n && id in blogs && blogs[id] == b
  {
    if n <= 1 then []
    else BlogsInTable(blogs, n - 1) + (if n - 1 in blogs then [blogs[n - 1]] else [])
  }

  /** The inner join with users, in table order. */
  function JoinAuthors(s: DbState, rows: seq<BlogRow>): (r: seq<BlogRecord>)
    ensures forall b :: b in r <==> exists row :: row in rows && row.authorId in s.users && Joined(s, row) == b
  {
    if rows == [] then []
    else
      assert forall row :: row in rows <==> row == rows[0] || row in rows[1..];
      (if rows[0].authorId in s.users then [Joined(s, rows[0])] else []) + JoinAuthors(s, rows[1..])
  }

  function BlogTime(b: BlogRecord): int { b.createdAt }

  function AnyBlog(): BlogRow -> bool {
    (b: BlogRow) => true
  }

  function ByAuthor(authorId: int): BlogRow -> bool {
    (b: BlogRow) => b.authorId == authorId
  }

  /** ... WHERE <keep> ORDER BY b.created_at DESC, all rows. */
  function BlogList(s: DbState, keep: BlogRow -> bool): seq<BlogRecord> {
    SortNewestFirst(JoinAuthors(s, Filter(BlogsInTable(s.blogs, s.nextBlogId), keep)), BlogTime)
  }

  /** BlogRepository.GetAll. */
  function SelectAllBlogs(s: DbState, limit: int, offset: int): Result<seq<BlogRecord>> {
    Paged(s, BlogList(s, AnyBlog()), limit, offset)
  }

  /** BlogRepository.GetByAuthor. */
  function SelectBlogsByAuthor(s: DbState, authorId: int, limit: int, offset: int): Result<seq<BlogRecord>> {
    Paged(s, BlogList(s, ByAuthor(authorId)), limit, offset)
  }

  /** The blog with that id exists and was written by that author. */
  predicate Owns(s: DbState, id: int, authorId: int) {
    id in s.blogs && s.blogs[id].authorId == authorId
  }

  /**
   * UPDATE blogs SET title, description, body, updated_at WHERE id = $5 AND
   * author_id = $6; a title whose excess is only spaces is stored cut.
   */
  function UpdateBlog(s: DbState, b: BlogRecord): (r: (DbState, Option<Err>))
    ensures Valid(s) ==> Valid(r.0)
    ensures r.0.blogs.Keys == s.blogs.Keys
    ensures r.0 == s || r.1.None?
    ensures r.1.Some? ==> r.1.value.StoreError?
    ensures r.1.None? <==> s.online && (Owns(s, b.id, b.authorId) ==> Fits(b.title, TitleWidth))
    ensures !Owns(s, b.id, b.authorId) ==> r.0 == s
    ensures r.0.users == s.users && r.0.follows == s.follows && r.0.likes == s.likes
    ensures forall id :: id in s.blogs && id != b.id ==> r.0.blogs[id] == s.blogs[id]
    ensures b.id in s.blogs ==>
      var was, now := s.blogs[b.id], r.0.blogs[b.id];
      && now.id == was.id && now.authorId == was.authorId && now.createdAt == was.createdAt
      && (r.1.None? && Owns(s, b.id, b.authorId) ==>
            now.title == Cut(b.title, TitleWidth) && now.description == b.description
            && now.body == b.body && now.updatedAt == b.updatedAt)
  {
    if !s.online then (s, Some(Down))
    else if !Owns(s, b.id, b.authorId) then (s, None)
    else if !Fits(b.title, TitleWidth) then (s, Some(StoreError(ValueTooLong)))
    else
      var row := s.blogs[b.id].(title := Cut(b.title, TitleWidth), description := b.description,
                                body := b.body, updatedAt := b.updatedAt);
      (s.(blogs := s.blogs[b.id := row]), None)
  }

  function NotOnBlog(blogId: int): LikeRow -> bool {
    (l: LikeRow) => l.blogId != blogId
  }

  /**
   * DELETE FROM blogs WHERE id = $1 AND author_id = $2, with the likes of
   * the blog removed by ON DELETE CASCADE; no deleted row is reported as
   * ErrBlogNotFound.
   */
  function DeleteBlog(s: DbState, id: int, authorId: int): (r: (DbState, Option<Err>))
    ensures r.1.None? <==> s.online && id in s.blogs && s.blogs[id].authorId == authorId
    ensures r.1.None? ==> r.0.blogs == s.blogs - {id} && r.0.users == s.users
    ensures r.1.None? ==> r.0.follows == s.follows && r.0.nextUserId == s.nextUserId
                          && r.0.nextBlogId == s.nextBlogId
    ensures r.1.None? ==> forall l :: l in r.0.likes <==> l in s.likes && l.blogId != id
    ensures r.1.Some? ==> r.0 == s
    ensures r.1 == Some(BlogNotFound) <==> s.online && !(id in s.blogs && s.blogs[id].authorId == authorId)
  {
    if !s.online then (s, Some(Down))
    else if id !in s.blogs || s.blogs[id].authorId != authorId then (s, Some(BlogNotFound))
    else
      (s.(blogs := s.blogs - {id}, likes := Filter(s.likes, NotOnBlog(id))), None)
  }

  predicate Likes(s: DbState, blogId: int, userId: int) {
    exists l :: l in s.likes && LikePair(l) == (blogId, userId)
  }

  /** INSERT INTO likes ... ON CONFLICT (blog_id, user_id) DO NOTHING. */
  function InsertLike(s: DbState, blogId: int, userId: int, now: int): (r: (DbState, Option<Err>))
    ensures r.1.None? <==> s.online && (Likes(s, blogId, userId) || (blogId in s.blogs && userId in s.users))
    ensures r.1.None? ==> Likes(r.0, blogId, userId)
    ensures forall b, u :: (b, u) != (blogId, userId) ==> (Likes(r.0, b, u) <==> Likes(s, b, u))
    ensures r.1.Some? ==> r.0 == s
    ensures r.0.users == s.users && r.0.blogs == s.blogs && r.0.follows == s.follows
  {
    if !s.online then (s, Some(Down))
    else if Likes(s, blogId, userId) then (s, None)
    else if blogId !in s.blogs || userId !in s.users then (s, Some(StoreError(ForeignKeyViolation)))
    else
      var row := LikeRow(blogId, userId, now);
      assert row in s.likes + [row] && LikePair(row) == (blogId, userId);
      (s.(likes := s.likes + [row]), None)
  }

  function NotLike(blogId: int, userId: int): LikeRow -> bool {
    (l: LikeRow) => LikePair(l) != (blogId, userId)
  }

  /** DELETE FROM likes WHERE blog_id = $1 AND user_id = $2. */
  function DeleteLike(s: DbState, blogId: int, userId: int): (r: (DbState, Option<Err>))
    ensures r.1.None? <==> s.online
    ensures r.1.None? ==> !Likes(r.0, blogId, userId)
    ensures forall b, u :: (b, u) != (blogId, userId) ==> (Likes(r.0, b, u) <==> Likes(s, b, u))
    ensures r.0.users == s.users && r.0.blogs == s.blogs && r.0.follows == s.follows
  {
    if !s.online then (s, Some(Down))
    else
      (s.(likes := Filter(s.likes, NotLike(blogId, userId))), None)
  }

  /**
   * SELECT u.* FROM users u INNER JOIN likes l ON u.id = l.user_id WHERE
   * l.blog_id = $1 ORDER BY l.created_at DESC LIMIT $2 OFFSET $3.
   */
  function SelectLikers(s: DbState, blogId: int, limit: int, offset: int): Result<seq<UserRecord>> {
    Paged(s, LinkedUsers(s.likes, s.users, OnBlog(blogId), LikerOf, LikeTime), limit, offset)
  }

  /** SELECT EXISTS(SELECT 1 FROM likes WHERE blog_id = $1 AND user_id = $2). */
  function LikeExists(s: DbState, blogId: int, userId: int): (r: Result<bool>)
    ensures r.Ok? <==> s.online
    ensures r.Ok? ==> (r.value <==> Likes(s, blogId, userId))
  {
    if !s.online then Fail(Down) else Ok(Likes(s, blogId, userId))
  }

  // ------------------------------------------------- preserved constraints

  lemma InsertFollowKeepsValid(s: DbState, followerId: int, followingId: int, now: int)
    requires Valid(s)
    ensures Valid(InsertFollow(s, followerId, followingId, now).0)
  {
    var r := InsertFollow(s, followerId, followingId, now);
    if r.0 != s {
      var row := FollowRow(followerId, followingId, now);
      AppendDistinctKeys(s.follows, row, FollowPair);
    }
  }

  lemma DeleteFollowKeepsValid(s: DbState, followerId: int, followingId: int)
    requires Valid(s)
    ensures Valid(DeleteFollow(s, followerId, followingId).0)
  {
    FilterDistinctKeys(s.follows, NotPair(followerId, followingId), FollowPair);
  }

  lemma DeleteBlogKeepsValid(s: DbState, id: int, authorId: int)
    requires Valid(s)
    ensures Valid(DeleteBlog(s, id, authorId).0)
  {
    FilterDistinctKeys(s.likes, NotOnBlog(id), LikePair);
  }

  lemma InsertLikeKeepsValid(s: DbState, blogId: int, userId: int, now: int)
    requires Valid(s)
    ensures Valid(InsertLike(s, blogId, userId, now).0)
  {
    var r := InsertLike(s, blogId, userId, now);
    if r.0 != s {
      var row := LikeRow(blogId, userId, now);
      AppendDistinctKeys(s.likes, row, LikePair);
    }
  }

  lemma DeleteLikeKeepsValid(s: DbState, blogId: int, userId: int)
    requires Valid(s)
    ensures Valid(DeleteLike(s, blogId, userId).0)
  {
    FilterDistinctKeys(s.likes, NotLike(blogId, userId), LikePair);
  }
}
