/**
 * The Redis adapter of internal/infrastructure/cache/redis.go. The server's
 * key space is a map from keys to JSON documents; a User or Blog encoded to
 * JSON and decoded again is the same record, so a document holds the record
 * itself. CacheView is what a *RedisCache stands for: Absent for the nil
 * pointer that NewRedisCache returns when the server did not answer its
 * PING, otherwise whether the server answers and its key space.
 */
module Cache {
  import opened Wrappers
  import opened Errors
  import opened Entity
  import Decimal

  /** fmt.Sprintf("user:%d", id). */
  function UserKey(id: int): string {
    "user:" + Decimal.IntToString(id)
  }

  /** fmt.Sprintf("blog:%d", id). */
  function BlogKey(id: int): string {
    "blog:" + Decimal.IntToString(id)
  }

  /** Different users get different keys, different blogs too, and no user key is a blog key. */
  lemma KeysDistinct(a: int, b: int)
    ensures UserKey(a) == UserKey(b) <==> a == b
    ensures BlogKey(a) == BlogKey(b) <==> a == b
    ensures UserKey(a) != BlogKey(b)
  {
    if UserKey(a) == UserKey(b) {
      assert Decimal.IntToString(a) == UserKey(a)[5..] && Decimal.IntToString(b) == UserKey(b)[5..];
      Decimal.IntToStringInjective(a, b);
    }
    if BlogKey(a) == BlogKey(b) {
      assert Decimal.IntToString(a) == BlogKey(a)[5..] && Decimal.IntToString(b) == BlogKey(b)[5..];
      Decimal.IntToStringInjective(a, b);
    }
    assert UserKey(a)[0] == 'u' && BlogKey(b)[0] == 'b';
  }

  /** time.Minute, in nanoseconds. */
  const Minute: int := 60 * 1_000_000_000
  /** The expiration the user use cases give SetUser. */
  const UserTTL: int := 15 * Minute
  /** The expiration the blog use cases give SetBlog. */
  const BlogTTL: int := 10 * Minute

  /** The value stored under a key. */
  datatype Document = UserDoc(user: UserRecord) | BlogDoc(blog: BlogRecord) | OtherDoc(text: string)

  datatype Entry = Entry(doc: Document, expiration: int)

  datatype CacheView = Absent | Present(reachable: bool, entries: map<string, Entry>)

  /** The server answers: a *RedisCache that is not nil and whose connection works. */
  predicate Live(c: CacheView) {
    c.Present? && c.reachable
  }

  /**
   * The key space as the next call finds it when the server has gone away
   * or come back in between: Redis keeps its keys across a dropped
   * connection, so only whether it answers changes.
   */
  function WithServer(c: CacheView, reachable: bool): CacheView {
    if c.Absent? then Absent else Present(reachable, c.entries)
  }

  const CacheDown: Err := CacheError(ConnectionError)

  /**
   * Redis glob matching, for the pattern characters that the application
   * uses: `*` matches any run of characters, `?` any one character, every
   * other character itself.
   */
  function Matches(pattern: string, key: string): bool
    decreases |pattern| + |key|
  {
    if pattern == [] then key == []
    else if pattern[0] == '*' then Matches(pattern[1..], key) || (key != [] && Matches(pattern, key[1..]))
    else key != [] && (pattern[0] == '?' || pattern[0] == key[0]) && Matches(pattern[1..], key[1..])
  }

  lemma {:induction false} StarMatchesEverything(key: string)
    ensures Matches("*", key)
  {
    if key != [] {
      StarMatchesEverything(key[1..]);
    }
  }

  /** A literal prefix followed by `*` matches exactly the keys that start with the prefix. */
  lemma {:induction false} PrefixPattern(prefix: string, key: string)
    requires forall i :: 0 <= i < |prefix| ==> prefix[i] != '*' && prefix[i] != '?'
    ensures Matches(prefix + "*", key) <==> |prefix| <= |key| && key[..|prefix|] == prefix
  {
    if prefix == [] {
      assert prefix + "*" == "*";
      StarMatchesEverything(key);
    } else {
      assert (prefix + "*")[1..] == prefix[1..] + "*";
      if key != [] {
        PrefixPattern(prefix[1..], key[1..]);
        if |prefix| <= |key| && key[..|prefix|] == prefix {
          assert key[1..][..|prefix| - 1] == prefix[1..];
        }
        if |prefix| <= |key| && key[1..][..|prefix| - 1] == prefix[1..] && key[0] == prefix[0] {
          assert key[..|prefix|] == [key[0]] + key[1..][..|prefix| - 1];
        }
      }
    }
  }

  /** The pattern the blog use cases delete after every blog write. */
  const BlogListPattern: string := "blogs:*"

  /**
   * "blogs:*" matches no key the adapter ever writes: "blog:<id>" has a
   * colon where the pattern has an 's', and "user:<id>" starts differently.
   */
  lemma BlogListPatternSparesEntities(id: int)
    ensures !Matches(BlogListPattern, UserKey(id))
    ensures !Matches(BlogListPattern, BlogKey(id))
  {
    var prefix := "blogs:";
    assert BlogListPattern == prefix + "*";
    PrefixPattern(prefix, UserKey(id));
    PrefixPattern(prefix, BlogKey(id));
    assert UserKey(id)[0] != prefix[0];
    assert BlogKey(id)[4] == ':' != prefix[4];
  }

  /** SetUser: a write of the user's document under user:<id>. */
  function PutUser(c: CacheView, u: UserRecord, expiration: int): (CacheView, Option<Err>) {
    match c
    case Absent => (Absent, None)
    case Present(reachable, m) =>
      if !reachable then (c, Some(CacheDown))
      else (Present(true, m[UserKey(u.id) := Entry(UserDoc(u), expiration)]), None)
  }

  /** SetBlog: a write of the blog's document under blog:<id>. */
  function PutBlog(c: CacheView, b: BlogRecord, expiration: int): (CacheView, Option<Err>) {
    match c
    case Absent => (Absent, None)
    case Present(reachable, m) =>
      if !reachable then (c, Some(CacheDown))
      else (Present(true, m[BlogKey(b.id) := Entry(BlogDoc(b), expiration)]), None)
  }

  /** GetUser: "cache not available", a connection error, redis.Nil, or the decoded user. */
  function LookupUser(c: CacheView, id: int): Result<UserRecord> {
    match c
    case Absent => Fail(CacheError(NotAvailable))
    case Present(reachable, m) =>
      if !reachable then Fail(CacheDown)
      else if UserKey(id) !in m then Fail(CacheError(NotInCache))
      else if m[UserKey(id)].doc.UserDoc? then Ok(m[UserKey(id)].doc.user)
      else Fail(CacheError(DecodeError))
  }

  /** GetBlog, in the same way. */
  function LookupBlog(c: CacheView, id: int): Result<BlogRecord> {
    match c
    case Absent => Fail(CacheError(NotAvailable))
    case Present(reachable, m) =>
      if !reachable then Fail(CacheDown)
      else if BlogKey(id) !in m then Fail(CacheError(NotInCache))
      else if m[BlogKey(id)].doc.BlogDoc? then Ok(m[BlogKey(id)].doc.blog)
      else Fail(CacheError(DecodeError))
  }

  /** DEL key (DeleteUser and DeleteBlog); deleting a missing key is no error. */
  function Remove(c: CacheView, key: string): (CacheView, Option<Err>) {
    match c
    case Absent => (Absent, None)
    case Present(reachable, m) =>
      if !reachable then (c, Some(CacheDown))
      else (Present(true, m - {key}), None)
  }

  /** DeletePattern: every key the pattern matches is deleted. */
  function RemoveMatching(c: CacheView, pattern: string): (CacheView, Option<Err>) {
    match c
    case Absent => (Absent, None)
    case Present(reachable, m) =>
      if !reachable then (c, Some(CacheDown))
      else (Present(true, map k | k in m && !Matches(pattern, k) :: m[k]), None)
  }

  /** Without a cache every write succeeds and changes nothing, and every read fails. */
  lemma AbsentIsInert(u: UserRecord, b: BlogRecord, id: int, key: string, pattern: string, expiration: int)
    ensures PutUser(Absent, u, expiration) == (Absent, None)
    ensures PutBlog(Absent, b, expiration) == (Absent, None)
    ensures Remove(Absent, key) == (Absent, None)
    ensures RemoveMatching(Absent, pattern) == (Absent, None)
    ensures LookupUser(Absent, id) == Fail(CacheError(NotAvailable))
    ensures LookupBlog(Absent, id) == Fail(CacheError(NotAvailable))
  {
  }

  /** SetUser then GetUser gives the user back; no other user and no blog is affected. */
  lemma PutUserThenLookup(c: CacheView, u: UserRecord, expiration: int, id: int)
    requires Live(c)
    ensures var c2 := PutUser(c, u, expiration).0;
      && Live(c2)
      && LookupUser(c2, id) == (if id == u.id then Ok(u) else LookupUser(c, id))
      && LookupBlog(c2, id) == LookupBlog(c, id)
  {
    KeysDistinct(id, u.id);
    KeysDistinct(u.id, id);
  }

  /** SetBlog then GetBlog gives the blog back; no other blog and no user is affected. */
  lemma PutBlogThenLookup(c: CacheView, b: BlogRecord, expiration: int, id: int)
    requires Live(c)
    ensures var c2 := PutBlog(c, b, expiration).0;
      && Live(c2)
      && LookupBlog(c2, id) == (if id == b.id then Ok(b) else LookupBlog(c, id))
      && LookupUser(c2, id) == LookupUser(c, id)
  {
    KeysDistinct(id, b.id);
    KeysDistinct(b.id, id);
  }

  /** DeleteUser then GetUser misses; the other keys keep their documents. */
  lemma RemoveUserThenLookup(c: CacheView, id: int, other: int)
    requires Live(c)
    ensures var c2 := Remove(c, UserKey(id)).0;
      && LookupUser(c2, id) == Fail(CacheError(NotInCache))
      && (other != id ==> LookupUser(c2, other) == LookupUser(c, other))
      && LookupBlog(c2, other) == LookupBlog(c, other)
  {
    KeysDistinct(id, other);
    KeysDistinct(other, id);
  }

  /** DeleteBlog then GetBlog misses; the other keys keep their documents. */
  lemma RemoveBlogThenLookup(c: CacheView, id: int, other: int)
    requires Live(c)
    ensures var c2 := Remove(c, BlogKey(id)).0;
      && LookupBlog(c2, id) == Fail(CacheError(NotInCache))
      && (other != id ==> LookupBlog(c2, other) == LookupBlog(c, other))
      && LookupUser(c2, other) == LookupUser(c, other)
  {
    KeysDistinct(id, other);
    KeysDistinct(other, id);
  }

  /** Deleting "blogs:*" leaves every user and blog document where it was. */
  lemma RemoveBlogListKeepsEntities(c: CacheView, id: int)
    ensures LookupUser(RemoveMatching(c, BlogListPattern).0, id) == LookupUser(c, id)
    ensures LookupBlog(RemoveMatching(c, BlogListPattern).0, id) == LookupBlog(c, id)
  {
    BlogListPatternSparesEntities(id);
  }

  /** The key space: the entries of a live cache, nothing otherwise. */
  function View(r: RedisCache?): CacheView
    reads r
  {
    if r == null then Absent else Present(r.reachable, r.entries)
  }

  /**
   * The client of a server that answered PING. Whether the server keeps
   * answering is fixed for the object's lifetime; an outage between two
   * calls is WithServer on the CacheView.
   */
  class RedisCache {
    const reachable: bool
    var entries: map<string, Entry>

    constructor (reachable: bool)
      ensures this.reachable == reachable && entries == map[]
    {
      this.reachable := reachable;
      entries := map[];
    }

    /** NewRedisCache: nil when the server does not answer PING. */
    static method Connect(pingOk: bool) returns (r: RedisCache?)
      ensures r != null <==> pingOk
      ensures r != null ==> fresh(r) && View(r) == Present(true, map[])
    {
      if !pingOk {
        return null;
      }
      r := new RedisCache(true);
    }

    static method SetUser(r: RedisCache?, user: User, expiration: int) returns (err: Option<Err>)
      modifies r
      ensures (View(r), err) == PutUser(old(View(r)), user.Record(), expiration)
    {
      if r == null {
        return None;
      }
      if !r.reachable {
        return Some(CacheDown);
      }
      r.entries := r.entries[UserKey(user.id) := Entry(UserDoc(user.Record()), expiration)];
      err := None;
    }

    static method GetUser(r: RedisCache?, userId: int) returns (user: User?, err: Option<Err>)
      ensures match LookupUser(View(r), userId)
        case Ok(u) => err.None? && user != null && fresh(user) && user.Record() == u
        case Fail(e) => err == Some(e) && user == null
    {
      if r == null {
        return null, Some(CacheError(NotAvailable));
      }
      if !r.reachable {
        return null, Some(CacheDown);
      }
      var key := UserKey(userId);
      if key !in r.entries {
        return null, Some(CacheError(NotInCache));
      }
      var doc := r.entries[key].doc;
      if !doc.UserDoc? {
        return null, Some(CacheError(DecodeError));
      }
      user := new User.FromRecord(doc.user);
      err := None;
    }

    static method DeleteUser(r: RedisCache?, userId: int) returns (err: Option<Err>)
      modifies r
      ensures (View(r), err) == Remove(old(View(r)), UserKey(userId))
    {
      if r == null {
        return None;
      }
      if !r.reachable {
        return Some(CacheDown);
      }
      r.entries := r.entries - {UserKey(userId)};
      err := None;
    }

    static method SetBlog(r: RedisCache?, blog: Blog, expiration: int) returns (err: Option<Err>)
      modifies r
      ensures (View(r), err) == PutBlog(old(View(r)), blog.Record(), expiration)
    {
      if r == null {
        return None;
      }
      if !r.reachable {
        return Some(CacheDown);
      }
      r.entries := r.entries[BlogKey(blog.id) := Entry(BlogDoc(blog.Record()), expiration)];
      err := None;
    }

    static method GetBlog(r: RedisCache?, blogId: int) returns (blog: Blog?, err: Option<Err>)
      ensures match LookupBlog(View(r), blogId)
        case Ok(b) => err.None? && blog != null && fresh(blog) && blog.Record() == b
        case Fail(e) => err == Some(e) && blog == null
    {
      if r == null {
        return null, Some(CacheError(NotAvailable));
      }
      if !r.reachable {
        return null, Some(CacheDown);
      }
      var key := BlogKey(blogId);
      if key !in r.entries {
        return null, Some(CacheError(NotInCache));
      }
      var doc := r.entries[key].doc;
      if !doc.BlogDoc? {
        return null, Some(CacheError(DecodeError));
      }
      blog := new Blog.FromRecord(doc.blog);
      err := None;
    }

    static method DeleteBlog(r: RedisCache?, blogId: int) returns (err: Option<Err>)
      modifies r
      ensures (View(r), err) == Remove(old(View(r)), BlogKey(blogId))
    {
      if r == null {
        return None;
      }
      if !r.reachable {
        return Some(CacheDown);
      }
      r.entries := r.entries - {BlogKey(blogId)};
      err := None;
    }

    /** SCAN for the matching keys, then DEL them one at a time. */
    static method DeletePattern(r: RedisCache?, pattern: string) returns (err: Option<Err>)
      modifies r
      ensures (View(r), err) == RemoveMatching(old(View(r)), pattern)
    {
      if r == null {
        return None;
      }
      if !r.reachable {
        return Some(CacheDown);
      }
      ghost var start := r.entries;
      var doomed := set k | k in r.entries && Matches(pattern, k);
      while doomed != {}
        invariant forall k :: k in doomed ==> k in start && Matches(pattern, k)
        invariant forall k :: k in r.entries <==> k in start && (!Matches(pattern, k) || k in doomed)
        invariant forall k :: k in r.entries ==> r.entries[k] == start[k]
        decreases |doomed|
      {
        var k :| k in doomed;
        r.entries := r.entries - {k};
        doomed := doomed - {k};
      }
      assert r.entries == map k | k in start && !Matches(pattern, k) :: start[k];
      err := None;
    }
  }
}
