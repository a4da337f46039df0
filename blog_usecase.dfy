/**
 * The blog use cases of internal/usecase/blog_usecase.go, in the same two
 * layers as the user use cases: a function per operation from the World
 * before the call to the World after it and the result, and the methods of
 * class BlogUseCase, proved to have exactly that effect. Cache errors are
 * ignored; time.Now and SQL NOW() are the parameter now.
 */
module BlogFlows {
  import opened Wrappers
  import opened Errors
  import opened Entity
  import Store
  import Paging
  import opened Cache
  import opened Wiring
  import opened Database

  /** What entity.NewBlog builds. */
  function NewBlogRecord(title: string, description: string, body: string, authorId: int, now: int): BlogRecord {
    BlogRecord(0, title, description, body, authorId, None, 0, now, now)
  }

  /** blog:<id> and then every "blogs:*" key are dropped. */
  function ForgetBlog(c: CacheView, id: int): CacheView {
    RemoveMatching(Remove(c, BlogKey(id)).0, BlogListPattern).0
  }

  function CreateBlogSpec(w: World, title: string, description: string, body: string, authorId: int, now: int)
    : (World, Result<BlogRecord>)
  {
    var b := NewBlogRecord(title, description, body, authorId, now);
    if ValidateBlog(b).Some? then (w, Fail(ValidateBlog(b).value))
    else
      var ins := Store.InsertBlog(w.db, b);
      if ins.1.Fail? then (World(ins.0, w.cache), Fail(ins.1.error))
      else (World(ins.0, RemoveMatching(w.cache, BlogListPattern).0), Ok(b.(id := ins.1.value)))
  }

  /** Cache first; on any cache failure the store, and a found blog is cached for 10 minutes. */
  function GetBlogByIDSpec(w: World, id: int): (World, Result<BlogRecord>) {
    match LookupBlog(w.cache, id)
    case Ok(b) => (w, Ok(b))
    case Fail(_) =>
      match Store.SelectBlog(w.db, id)
      case Fail(e) => (w, Fail(e))
      case Ok(b) => (w.(cache := PutBlog(w.cache, b, BlogTTL).0), Ok(b))
  }

  /** The stored blog with its content replaced, checked again before it is written. */
  function UpdateBlogSpec(w: World, id: int, title: string, description: string, body: string,
                          userId: int, now: int): (World, Result<BlogRecord>)
  {
    match Store.SelectBlog(w.db, id)
    case Fail(e) => (w, Fail(e))
    case Ok(b) =>
      if b.authorId != userId then (w, Fail(NotBlogOwner))
      else
        var changed := b.(title := title, description := description, body := body, updatedAt := now);
        if ValidateBlog(changed).Some? then (w, Fail(ValidateBlog(changed).value))
        else
          var upd := Store.UpdateBlog(w.db, changed);
          if upd.1.Some? then (World(upd.0, w.cache), Fail(upd.1.value))
          else (World(upd.0, ForgetBlog(w.cache, id)), Ok(changed))
  }

  /** The ownership check on the stored blog, then DELETE ... WHERE id AND author_id = userId. */
  function DeleteBlogSpec(w: World, id: int, userId: int): (World, Option<Err>) {
    match Store.SelectBlog(w.db, id)
    case Fail(e) => (w, Some(e))
    case Ok(b) =>
      if b.authorId != userId then (w, Some(NotBlogOwner))
      else
        var del := Store.DeleteBlog(w.db, id, userId);
        if del.1.Some? then (World(del.0, w.cache), del.1)
        else (World(del.0, ForgetBlog(w.cache, id)), None)
  }

  function LikeBlogSpec(w: World, blogId: int, userId: int, now: int): (World, Option<Err>) {
    var ins := Store.InsertLike(w.db, blogId, userId, now);
    if ins.1.Some? then (World(ins.0, w.cache), ins.1)
    else (World(ins.0, Remove(w.cache, BlogKey(blogId)).0), None)
  }

  function UnlikeBlogSpec(w: World, blogId: int, userId: int): (World, Option<Err>) {
    var del := Store.DeleteLike(w.db, blogId, userId);
    if del.1.Some? then (World(del.0, w.cache), del.1)
    else (World(del.0, Remove(w.cache, BlogKey(blogId)).0), None)
  }

  // ------------------------------------------------------------ properties

  /** An empty title, an empty body or author 0 is reported before anything is written. */
  lemma CreateBlogInvalidWritesNothing(w: World, title: string, description: string, body: string,
                                       authorId: int, now: int)
    requires title == "" || body == "" || authorId == 0
    ensures var r := CreateBlogSpec(w, title, description, body, authorId, now);
      && r.0 == w
      && r.1 == Fail(ValidateBlog(NewBlogRecord(title, description, body, authorId, now)).value)
      && (title == "" ==> r.1 == Fail(InvalidTitle))
  {
  }

  /**
   * A created blog is stored with its title cut to the column's width, its
   * author's row joined and no likes;
   * the cache only loses its "blogs:*" keys, so every user and blog entry
   * survives.
   */
  lemma CreateBlogEffect(w: World, title: string, description: string, body: string,
                         authorId: int, now: int, other: int)
    requires Store.Valid(w.db)
    ensures var r := CreateBlogSpec(w, title, description, body, authorId, now);
      r.1.Ok? ==>
        && r.1.value.id !in w.db.blogs
        && Store.SelectBlog(r.0.db, r.1.value.id)
           == Ok(r.1.value.(title := Store.Cut(title, Store.TitleWidth), author := Some(w.db.users[authorId])))
        && LookupUser(r.0.cache, other) == LookupUser(w.cache, other)
        && LookupBlog(r.0.cache, other) == LookupBlog(w.cache, other)
        && (Live(w.cache) ==>
              forall k :: k in r.0.cache.entries <==> k in w.cache.entries && !Matches(BlogListPattern, k))
  {
    var b := NewBlogRecord(title, description, body, authorId, now);
    var ins := Store.InsertBlog(w.db, b);
    if ValidateBlog(b).None? && ins.1.Ok? {
      RemoveBlogListKeepsEntities(w.cache, other);
      var id := ins.1.value;
      assert Store.CountLikes(ins.0, id) == 0 by {
        Paging.FilterKeepsNone(ins.0.likes, Store.OnBlog(id));
      }
    }
  }

  /** A cache hit is returned as it is; the store is not consulted, whatever it holds. */
  lemma GetBlogByIDHit(w: World, id: int, other: Store.DbState)
    requires LookupBlog(w.cache, id).Ok?
    ensures GetBlogByIDSpec(w, id) == (w, LookupBlog(w.cache, id))
    ensures GetBlogByIDSpec(World(other, w.cache), id).1 == LookupBlog(w.cache, id)
  {
  }

  /**
   * On a miss the store decides: its error comes back with the cache
   * unchanged; a found blog is returned and, when the cache answers, cached.
   */
  lemma GetBlogByIDMiss(w: World, id: int)
    requires LookupBlog(w.cache, id).Fail?
    requires Store.Valid(w.db)
    ensures var r := GetBlogByIDSpec(w, id);
      && r.0.db == w.db
      && r.1 == Store.SelectBlog(w.db, id)
      && (r.1.Fail? ==> r.0 == w)
      && (r.1.Ok? && Live(w.cache) ==> LookupBlog(r.0.cache, id) == r.1)
  {
    if Store.SelectBlog(w.db, id).Ok? && Live(w.cache) {
      PutBlogThenLookup(w.cache, Store.SelectBlog(w.db, id).value, BlogTTL, id);
    }
  }

  /** Someone other than the author can neither update nor delete: nothing changes. */
  lemma NonOwnerRefused(w: World, id: int, userId: int, title: string, description: string,
                        body: string, now: int)
    requires Store.SelectBlog(w.db, id).Ok?
    requires Store.SelectBlog(w.db, id).value.authorId != userId
    ensures UpdateBlogSpec(w, id, title, description, body, userId, now) == (w, Fail(NotBlogOwner))
    ensures DeleteBlogSpec(w, id, userId) == (w, Some(NotBlogOwner))
  {
  }

  /** A missing blog is reported by both before anything else is looked at. */
  lemma MissingBlogReported(w: World, id: int, userId: int, title: string, description: string,
                            body: string, now: int)
    requires w.db.online
    requires id !in w.db.blogs
    ensures UpdateBlogSpec(w, id, title, description, body, userId, now) == (w, Fail(BlogNotFound))
    ensures DeleteBlogSpec(w, id, userId) == (w, Some(BlogNotFound))
  {
  }

  /** The author's new content is validated again; an empty title or body writes nothing. */
  lemma UpdateBlogRevalidates(w: World, id: int, title: string, description: string, body: string,
                              userId: int, now: int)
    requires Store.SelectBlog(w.db, id).Ok?
    requires Store.SelectBlog(w.db, id).value.authorId == userId
    requires title == "" || body == ""
    ensures var r := UpdateBlogSpec(w, id, title, description, body, userId, now);
      && r.0 == w
      && r.1 == Fail(if title == "" then InvalidTitle else InvalidBody)
  {
  }

  /**
   * A successful update returns the blog with the new content and the old
   * author, id and like count; blog:<id> is out of the cache, and the next
   * GetBlogByID returns the updated blog with its title as the column
   * stores it.
   */
  lemma UpdateBlogThenGet(w: World, id: int, title: string, description: string, body: string,
                          userId: int, now: int)
    requires Store.Valid(w.db)
    ensures var r := UpdateBlogSpec(w, id, title, description, body, userId, now);
      r.1.Ok? ==>
        && Store.SelectBlog(w.db, id).Ok?
        && r.1.value == Store.SelectBlog(w.db, id).value.(title := title, description := description,
                                                          body := body, updatedAt := now)
        && r.1.value.authorId == userId && r.1.value.id == id
        && (Live(w.cache) ==> LookupBlog(r.0.cache, id) == Fail(CacheError(NotInCache)))
        && GetBlogByIDSpec(r.0, id).1 == Ok(r.1.value.(title := Store.Cut(title, Store.TitleWidth)))
  {
    var r := UpdateBlogSpec(w, id, title, description, body, userId, now);
    if r.1.Ok? {
      var c1 := Remove(w.cache, BlogKey(id)).0;
      if Live(w.cache) {
        RemoveBlogThenLookup(w.cache, id, id);
        RemoveBlogListKeepsEntities(c1, id);
      }
    }
  }

  /**
   * Once the author passes the check, the store delete is run with userId
   * as the author and its error is the result; a successful delete leaves
   * no row, no likes and no blog:<id> entry.
   */
  lemma DeleteBlogEffect(w: World, id: int, userId: int)
    requires Store.SelectBlog(w.db, id).Ok?
    requires Store.SelectBlog(w.db, id).value.authorId == userId
    ensures var r := DeleteBlogSpec(w, id, userId);
      && r.0.db == Store.DeleteBlog(w.db, id, userId).0
      && r.1 == Store.DeleteBlog(w.db, id, userId).1
    ensures var r := DeleteBlogSpec(w, id, userId);
      r.1.None? ==>
        && Store.SelectBlog(r.0.db, id) == Fail(BlogNotFound)
        && !(exists l :: l in r.0.db.likes && l.blogId == id)
        && (Live(w.cache) ==> LookupBlog(r.0.cache, id) == Fail(CacheError(NotInCache)))
  {
    var r := DeleteBlogSpec(w, id, userId);
    if r.1.None? && Live(w.cache) {
      RemoveBlogThenLookup(w.cache, id, id);
      RemoveBlogListKeepsEntities(Remove(w.cache, BlogKey(id)).0, id);
    }
  }

  /**
   * Liking and unliking drop only blog:<blogId>: every other key, the
   * "blogs:*" ones included, stays.
   */
  lemma LikeInvalidatesOnlyBlog(w: World, blogId: int, userId: int, now: int)
    requires Live(w.cache)
    ensures var r := LikeBlogSpec(w, blogId, userId, now);
      r.1.None? ==>
        && Store.Likes(r.0.db, blogId, userId)
        && r.0.cache == Present(true, w.cache.entries - {BlogKey(blogId)})
        && LookupBlog(r.0.cache, blogId) == Fail(CacheError(NotInCache))
    ensures var r := UnlikeBlogSpec(w, blogId, userId);
      r.1.None? ==>
        && !Store.Likes(r.0.db, blogId, userId)
        && r.0.cache == Present(true, w.cache.entries - {BlogKey(blogId)})
        && LookupBlog(r.0.cache, blogId) == Fail(CacheError(NotInCache))
  {
  }

  /** Every blog use case keeps the schema's constraints. */
  lemma BlogFlowsKeepValid(w: World, id: int, userId: int, title: string, description: string,
                           body: string, now: int)
    requires Store.Valid(w.db)
    ensures Store.Valid(CreateBlogSpec(w, title, description, body, userId, now).0.db)
    ensures Store.Valid(GetBlogByIDSpec(w, id).0.db)
    ensures Store.Valid(UpdateBlogSpec(w, id, title, description, body, userId, now).0.db)
    ensures Store.Valid(DeleteBlogSpec(w, id, userId).0.db)
    ensures Store.Valid(LikeBlogSpec(w, id, userId, now).0.db)
    ensures Store.Valid(UnlikeBlogSpec(w, id, userId).0.db)
  {
    Store.DeleteBlogKeepsValid(w.db, id, userId);
    Store.InsertLikeKeepsValid(w.db, id, userId, now);
    Store.DeleteLikeKeepsValid(w.db, id, userId);
  }

  // ----------------------------------------------------------- the object

  /** Values delivered as a blog pointer and an error. */
  predicate Delivered(blog: Blog?, err: Option<Err>, r: Result<BlogRecord>)
    reads blog
  {
    match r
    case Ok(b) => err.None? && blog != null && blog.Record() == b
    case Fail(e) => err == Some(e) && blog == null
  }

  class BlogUseCase {
    const blogRepo: BlogRepository
    const cacheRepo: CacheRepository

    constructor (blogRepo: BlogRepository, cacheRepo: CacheRepository)
      ensures this.blogRepo == blogRepo && this.cacheRepo == cacheRepo
    {
      this.blogRepo := blogRepo;
      this.cacheRepo := cacheRepo;
    }

    function Current(): World
      reads blogRepo.db, Redis(cacheRepo)
    {
      World(blogRepo.db.State(), CacheOf(cacheRepo))
    }

    method CreateBlog(title: string, description: string, body: string, authorId: int, now: int)
      returns (blog: Blog?, err: Option<Err>)
      modifies blogRepo.db, Redis(cacheRepo)
      ensures var r := CreateBlogSpec(old(Current()), title, description, body, authorId, now);
        Current() == r.0 && Delivered(blog, err, r.1)
      ensures blog != null ==> fresh(blog)
      ensures old(blogRepo.db.Valid()) ==> blogRepo.db.Valid()
    {
      blog := new Blog(title, description, body, authorId, now);
      var invalid := blog.Validate();
      if invalid.Some? {
        return null, invalid;
      }
      err := blogRepo.Create(blog);
      if err.Some? {
        return null, err;
      }
      if cacheRepo.Adapter? {
        var ignored := RedisCache.DeletePattern(cacheRepo.redis, BlogListPattern);
      }
    }

    method GetBlogByID(id: int) returns (blog: Blog?, err: Option<Err>)
      modifies Redis(cacheRepo)
      ensures var r := GetBlogByIDSpec(old(Current()), id);
        Current() == r.0 && Delivered(blog, err, r.1)
      ensures blog != null ==> fresh(blog)
    {
      if cacheRepo.Adapter? {
        var cached, cacheErr := RedisCache.GetBlog(cacheRepo.redis, id);
        if cacheErr.None? && cached != null {
          return cached, None;
        }
      }
      blog, err := blogRepo.GetByID(id);
      if err.Some? {
        return null, err;
      }
      if cacheRepo.Adapter? {
        var ignored := RedisCache.SetBlog(cacheRepo.redis, blog, BlogTTL);
      }
    }

    method GetAllBlogs(limit: int, offset: int) returns (blogs: seq<Blog>, err: Option<Err>)
      ensures match Store.SelectAllBlogs(blogRepo.db.State(), limit, offset)
        case Ok(rows) => err.None? && BlogRecords(blogs) == rows
                         && forall i :: 0 <= i < |blogs| ==> fresh(blogs[i])
        case Fail(e) => err == Some(e) && blogs == []
    {
      blogs, err := blogRepo.GetAll(limit, offset);
    }

    method GetBlogsByAuthor(authorId: int, limit: int, offset: int) returns (blogs: seq<Blog>, err: Option<Err>)
      ensures match Store.SelectBlogsByAuthor(blogRepo.db.State(), authorId, limit, offset)
        case Ok(rows) => err.None? && BlogRecords(blogs) == rows
                         && forall i :: 0 <= i < |blogs| ==> fresh(blogs[i])
        case Fail(e) => err == Some(e) && blogs == []
    {
      blogs, err := blogRepo.GetByAuthor(authorId, limit, offset);
    }

    method UpdateBlog(id: int, title: string, description: string, body: string, userId: int, now: int)
      returns (blog: Blog?, err: Option<Err>)
      modifies blogRepo.db, Redis(cacheRepo)
      ensures var r := UpdateBlogSpec(old(Current()), id, title, description, body, userId, now);
        Current() == r.0 && Delivered(blog, err, r.1)
      ensures blog != null ==> fresh(blog)
      ensures old(blogRepo.db.Valid()) ==> blogRepo.db.Valid()
    {
      blog, err := blogRepo.GetByID(id);
      if err.Some? {
        return null, err;
      }
      if !blog.IsOwnedBy(userId) {
        return null, Some(NotBlogOwner);
      }
      blog.Update(title, description, body, now);
      var invalid := blog.Validate();
      if invalid.Some? {
        return null, invalid;
      }
      err := blogRepo.Update(blog);
      if err.Some? {
        return null, err;
      }
      if cacheRepo.Adapter? {
        var ignored := RedisCache.DeleteBlog(cacheRepo.redis, id);
        ignored := RedisCache.DeletePattern(cacheRepo.redis, BlogListPattern);
      }
    }

    method DeleteBlog(id: int, userId: int) returns (err: Option<Err>)
      modifies blogRepo.db, Redis(cacheRepo)
      ensures (Current(), err) == DeleteBlogSpec(old(Current()), id, userId)
      ensures old(blogRepo.db.Valid()) ==> blogRepo.db.Valid()
    {
      var blog;
      blog, err := blogRepo.GetByID(id);
      if err.Some? {
        return err;
      }
      if !blog.IsOwnedBy(userId) {
        return Some(NotBlogOwner);
      }
      err := blogRepo.Delete(id, userId);
      if err.Some? {
        return err;
      }
      if cacheRepo.Adapter? {
        var ignored := RedisCache.DeleteBlog(cacheRepo.redis, id);
        ignored := RedisCache.DeletePattern(cacheRepo.redis, BlogListPattern);
      }
    }

    method LikeBlog(blogId: int, userId: int, now: int) returns (err: Option<Err>)
      modifies blogRepo.db, Redis(cacheRepo)
      ensures (Current(), err) == LikeBlogSpec(old(Current()), blogId, userId, now)
      ensures old(blogRepo.db.Valid()) ==> blogRepo.db.Valid()
    {
      err := blogRepo.Like(blogId, userId, now);
      if err.Some? {
        return err;
      }
      if cacheRepo.Adapter? {
        var ignored := RedisCache.DeleteBlog(cacheRepo.redis, blogId);
      }
    }

    method UnlikeBlog(blogId: int, userId: int) returns (err: Option<Err>)
      modifies blogRepo.db, Redis(cacheRepo)
      ensures (Current(), err) == UnlikeBlogSpec(old(Current()), blogId, userId)
      ensures old(blogRepo.db.Valid()) ==> blogRepo.db.Valid()
    {
      err := blogRepo.Unlike(blogId, userId);
      if err.Some? {
        return err;
      }
      if cacheRepo.Adapter? {
        var ignored := RedisCache.DeleteBlog(cacheRepo.redis, blogId);
      }
    }

    method GetBlogLikes(blogId: int, limit: int, offset: int) returns (users: seq<User>, err: Option<Err>)
      ensures match Store.SelectLikers(blogRepo.db.State(), blogId, limit, offset)
        case Ok(rows) => err.None? && UserRecords(users) == rows
                         && forall i :: 0 <= i < |users| ==> fresh(users[i])
        case Fail(e) => err == Some(e) && users == []
    {
      users, err := blogRepo.GetLikes(blogId, limit, offset);
    }
  }
}
