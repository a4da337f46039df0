/**
 * The decisions of internal/delivery/http/blog_handler.go, in the same
 * terms as the user handlers: the checks that answer before the use case
 * is called, the call made, and the status each error becomes. The author
 * of every write is the token's user, never a field of the body.
 */
module BlogHandlers {
  import opened Wrappers
  import opened Errors
  import opened Entity
  import opened HttpHelpers
  import opened Auth
  import Store
  import opened Wiring
  import opened BlogFlows

  /** The use-case calls the blog handlers make. */
  datatype BlogCall =
    | CreateBlogCall(title: string, description: string, body: string, authorId: int)
    | GetAllBlogsCall(limit: int, offset: int)
    | GetBlogByIDCall(id: int)
    | UpdateBlogCall(id: int, title: string, description: string, body: string, userId: int)
    | DeleteBlogCall(id: int, userId: int)
    | LikeBlogCall(blogId: int, userId: int)
    | UnlikeBlogCall(blogId: int, userId: int)
    | GetBlogLikesCall(blogId: int, limit: int, offset: int)

  /** The error a use-case call returns, None when it succeeds. */
  type BlogService = BlogCall -> Option<Err>

  datatype BlogBody = BlogBody(title: string, description: string, body: string)
  datatype ActionBody = ActionBody(action: string)

  /** The status an error of UpdateBlog or DeleteBlog becomes. */
  function OwnerErrorStatus(e: Err): (s: int)
    ensures s == StatusForbidden <==> e == NotBlogOwner
    ensures s == StatusNotFound <==> e == BlogNotFound
    ensures s in {StatusForbidden, StatusNotFound, StatusInternalServerError}
  {
    if e == NotBlogOwner then StatusForbidden
    else if e == BlogNotFound then StatusNotFound
    else StatusInternalServerError
  }

  /** POST /api/b/new. */
  function CreateBlog(ctx: Context, body: Option<BlogBody>, uc: BlogService): (r: Response<BlogCall>)
    ensures GetUserFromContext(ctx).None? ==> r == Response(StatusUnauthorized, None)
    ensures r.call.Some? <==> GetUserFromContext(ctx).Some? && body.Some?
    ensures r.call.Some? ==> r.call.value == CreateBlogCall(body.value.title, body.value.description,
                                                             body.value.body, GetUserFromContext(ctx).value.userId)
    ensures r.call.Some? ==> (r.status == StatusCreated <==> uc(r.call.value).None?)
    ensures r.call.Some? ==> (r.status == StatusBadRequest <==>
                                uc(r.call.value) == Some(InvalidTitle) || uc(r.call.value) == Some(InvalidBody))
    ensures r.status in {StatusCreated, StatusBadRequest, StatusUnauthorized, StatusInternalServerError}
  {
    match GetUserFromContext(ctx)
    case None => Response(StatusUnauthorized, None)
    case Some(claims) =>
      match body
      case None => Response(StatusBadRequest, None)
      case Some(req) =>
        var call := CreateBlogCall(req.title, req.description, req.body, claims.userId);
        match uc(call)
        case None => Response(StatusCreated, Some(call))
        case Some(e) =>
          if e == InvalidTitle || e == InvalidBody then Response(StatusBadRequest, Some(call))
          else Response(StatusInternalServerError, Some(call))
  }

  /** GET /api/b. */
  function GetBlogs(limitStr: string, offsetStr: string, uc: BlogService): (r: Response<BlogCall>)
    ensures var p := GetPaginationParams(limitStr, offsetStr); r.call == Some(GetAllBlogsCall(p.0, p.1))
    ensures r.status == (if uc(r.call.value).None? then StatusOK else StatusInternalServerError)
  {
    var (limit, offset) := GetPaginationParams(limitStr, offsetStr);
    var call := GetAllBlogsCall(limit, offset);
    if uc(call).Some? then Response(StatusInternalServerError, Some(call))
    else Response(StatusOK, Some(call))
  }

  /** GET /api/b/{id}. */
  function GetBlog(vars: PathVars, uc: BlogService): (r: Response<BlogCall>)
    ensures r.call.Some? <==> GetIDFromPath(vars, "id").Some?
    ensures r.call.None? ==> r.status == StatusBadRequest
    ensures r.call.Some? ==> r.call.value == GetBlogByIDCall(GetIDFromPath(vars, "id").value)
    ensures r.call.Some? ==> (r.status == StatusOK <==> uc(r.call.value).None?)
    ensures r.call.Some? ==> (r.status == StatusNotFound <==> uc(r.call.value) == Some(BlogNotFound))
    ensures r.status in {StatusOK, StatusBadRequest, StatusNotFound, StatusInternalServerError}
  {
    match GetIDFromPath(vars, "id")
    case None => Response(StatusBadRequest, None)
    case Some(id) =>
      var call := GetBlogByIDCall(id);
      match uc(call)
      case None => Response(StatusOK, Some(call))
      case Some(e) =>
        if e == BlogNotFound then Response(StatusNotFound, Some(call))
        else Response(StatusInternalServerError, Some(call))
  }

  /** POST /api/b/{id}/edit. */
  function UpdateBlog(ctx: Context, vars: PathVars, body: Option<BlogBody>, uc: BlogService)
    : (r: Response<BlogCall>)
    ensures GetUserFromContext(ctx).None? ==> r == Response(StatusUnauthorized, None)
    ensures r.call.Some? <==> GetUserFromContext(ctx).Some? && GetIDFromPath(vars, "id").Some? && body.Some?
    ensures r.call.Some? ==> r.call.value == UpdateBlogCall(GetIDFromPath(vars, "id").value, body.value.title,
                                                             body.value.description, body.value.body,
                                                             GetUserFromContext(ctx).value.userId)
    ensures r.call.Some? ==> r.status == (if uc(r.call.value).None? then StatusOK
                                          else OwnerErrorStatus(uc(r.call.value).value))
    ensures r.call.None? ==> r.status in {StatusUnauthorized, StatusBadRequest}
  {
    match GetUserFromContext(ctx)
    case None => Response(StatusUnauthorized, None)
    case Some(claims) =>
      match GetIDFromPath(vars, "id")
      case None => Response(StatusBadRequest, None)
      case Some(blogId) =>
        match body
        case None => Response(StatusBadRequest, None)
        case Some(req) =>
          var call := UpdateBlogCall(blogId, req.title, req.description, req.body, claims.userId);
          match uc(call)
          case None => Response(StatusOK, Some(call))
          case Some(e) =>
            if e == NotBlogOwner then Response(StatusForbidden, Some(call))
            else if e == BlogNotFound then Response(StatusNotFound, Some(call))
            else Response(StatusInternalServerError, Some(call))
  }

  /** POST /api/b/{id}/delete. */
  function DeleteBlog(ctx: Context, vars: PathVars, uc: BlogService): (r: Response<BlogCall>)
    ensures GetUserFromContext(ctx).None? ==> r == Response(StatusUnauthorized, None)
    ensures r.call.Some? <==> GetUserFromContext(ctx).Some? && GetIDFromPath(vars, "id").Some?
    ensures r.call.Some? ==> r.call.value == DeleteBlogCall(GetIDFromPath(vars, "id").value,
                                                             GetUserFromContext(ctx).value.userId)
    ensures r.call.Some? ==> r.status == (if uc(r.call.value).None? then StatusOK
                                          else OwnerErrorStatus(uc(r.call.value).value))
    ensures r.call.None? ==> r.status in {StatusUnauthorized, StatusBadRequest}
  {
    match GetUserFromContext(ctx)
    case None => Response(StatusUnauthorized, None)
    case Some(claims) =>
      match GetIDFromPath(vars, "id")
      case None => Response(StatusBadRequest, None)
      case Some(blogId) =>
        var call := DeleteBlogCall(blogId, claims.userId);
        match uc(call)
        case None => Response(StatusOK, Some(call))
        case Some(e) =>
          if e == NotBlogOwner then Response(StatusForbidden, Some(call))
          else if e == BlogNotFound then Response(StatusNotFound, Some(call))
          else Response(StatusInternalServerError, Some(call))
  }

  /** POST /api/b/{id} with {"action": "like" | "unlike"}: every error of the call is 500. */
  function LikeBlog(ctx: Context, vars: PathVars, body: Option<ActionBody>, uc: BlogService)
    : (r: Response<BlogCall>)
    ensures GetUserFromContext(ctx).None? ==> r == Response(StatusUnauthorized, None)
    ensures r.call.Some? <==> GetUserFromContext(ctx).Some? && GetIDFromPath(vars, "id").Some?
                               && body.Some? && body.value.action in {"like", "unlike"}
    ensures r.call.None? ==> r.status in {StatusUnauthorized, StatusBadRequest}
    ensures r.call.Some? && body.value.action == "like" ==>
              r.call.value == LikeBlogCall(GetIDFromPath(vars, "id").value, GetUserFromContext(ctx).value.userId)
    ensures r.call.Some? && body.value.action == "unlike" ==>
              r.call.value == UnlikeBlogCall(GetIDFromPath(vars, "id").value, GetUserFromContext(ctx).value.userId)
    ensures r.call.Some? ==> r.status == (if uc(r.call.value).None? then StatusOK else StatusInternalServerError)
  {
    match GetUserFromContext(ctx)
    case None => Response(StatusUnauthorized, None)
    case Some(claims) =>
      match GetIDFromPath(vars, "id")
      case None => Response(StatusBadRequest, None)
      case Some(blogId) =>
        match body
        case None => Response(StatusBadRequest, None)
        case Some(req) =>
          if req.action != "like" && req.action != "unlike" then Response(StatusBadRequest, None)
          else
            var call :=
              if req.action == "like" then LikeBlogCall(blogId, claims.userId)
              else UnlikeBlogCall(blogId, claims.userId);
            if uc(call).Some? then Response(StatusInternalServerError, Some(call))
            else Response(StatusOK, Some(call))
  }

  /** GET /api/b/{id}/likes. */
  function GetBlogLikes(vars: PathVars, limitStr: string, offsetStr: string, uc: BlogService)
    : (r: Response<BlogCall>)
    ensures r.call.Some? <==> GetIDFromPath(vars, "id").Some?
    ensures r.call.None? ==> r.status == StatusBadRequest
    ensures r.call.Some? ==> var p := GetPaginationParams(limitStr, offsetStr);
      r.call.value == GetBlogLikesCall(GetIDFromPath(vars, "id").value, p.0, p.1)
    ensures r.call.Some? ==> r.status == (if uc(r.call.value).None? then StatusOK else StatusInternalServerError)
  {
    match GetIDFromPath(vars, "id")
    case None => Response(StatusBadRequest, None)
    case Some(blogId) =>
      var (limit, offset) := GetPaginationParams(limitStr, offsetStr);
      var call := GetBlogLikesCall(blogId, limit, offset);
      if uc(call).Some? then Response(StatusInternalServerError, Some(call))
      else Response(StatusOK, Some(call))
  }

  // -------------------------------------------- against the use cases

  /** The error each call returns when served by the use cases of BlogFlows from the World w. */
  function Outcome(w: World, now: int, c: BlogCall): Option<Err> {
    match c
    case CreateBlogCall(t, d, b, a) =>
      var r := CreateBlogSpec(w, t, d, b, a, now).1;
      if r.Ok? then None else Some(r.error)
    case GetAllBlogsCall(l, o) =>
      var r := Store.SelectAllBlogs(w.db, l, o);
      if r.Ok? then None else Some(r.error)
    case GetBlogByIDCall(id) =>
      var r := GetBlogByIDSpec(w, id).1;
      if r.Ok? then None else Some(r.error)
    case UpdateBlogCall(id, t, d, b, u) =>
      var r := UpdateBlogSpec(w, id, t, d, b, u, now).1;
      if r.Ok? then None else Some(r.error)
    case DeleteBlogCall(id, u) => DeleteBlogSpec(w, id, u).1
    case LikeBlogCall(b, u) => LikeBlogSpec(w, b, u, now).1
    case UnlikeBlogCall(b, u) => UnlikeBlogSpec(w, b, u).1
    case GetBlogLikesCall(b, l, o) =>
      var r := Store.SelectLikers(w.db, b, l, o);
      if r.Ok? then None else Some(r.error)
  }

  function Served(w: World, now: int): BlogService {
    (c: BlogCall) => Outcome(w, now, c)
  }

  /** Someone else's blog: the edit and the delete are answered 403 and change nothing. */
  lemma NonOwnerForbidden(ctx: Context, vars: PathVars, body: BlogBody, w: World, now: int)
    requires GetUserFromContext(ctx).Some? && GetIDFromPath(vars, "id").Some?
    requires Store.SelectBlog(w.db, GetIDFromPath(vars, "id").value).Ok?
    requires Store.SelectBlog(w.db, GetIDFromPath(vars, "id").value).value.authorId
             != GetUserFromContext(ctx).value.userId
    ensures UpdateBlog(ctx, vars, Some(body), Served(w, now)).status == StatusForbidden
    ensures DeleteBlog(ctx, vars, Served(w, now)).status == StatusForbidden
    ensures var id := GetIDFromPath(vars, "id").value; var user := GetUserFromContext(ctx).value.userId;
      UpdateBlogSpec(w, id, body.title, body.description, body.body, user, now).0 == w
      && DeleteBlogSpec(w, id, user).0 == w
  {
    NonOwnerRefused(w, GetIDFromPath(vars, "id").value, GetUserFromContext(ctx).value.userId,
                    body.title, body.description, body.body, now);
  }

  /** With the store up, an id with no blog is answered 404 by the edit, the delete and the read. */
  lemma MissingBlogNotFound(ctx: Context, vars: PathVars, body: BlogBody, w: World, now: int)
    requires GetUserFromContext(ctx).Some? && GetIDFromPath(vars, "id").Some?
    requires w.db.online && GetIDFromPath(vars, "id").value !in w.db.blogs
    requires Cache.LookupBlog(w.cache, GetIDFromPath(vars, "id").value).Fail?
    ensures UpdateBlog(ctx, vars, Some(body), Served(w, now)).status == StatusNotFound
    ensures DeleteBlog(ctx, vars, Served(w, now)).status == StatusNotFound
    ensures GetBlog(vars, Served(w, now)).status == StatusNotFound
  {
    MissingBlogReported(w, GetIDFromPath(vars, "id").value, GetUserFromContext(ctx).value.userId,
                        body.title, body.description, body.body, now);
  }

  /**
   * An author id of 0 in the token reaches Validate and comes back as
   * ErrInvalidAuthor, which the handler does not list among the client
   * errors: 500.
   */
  lemma ZeroAuthorIs500(ctx: Context, body: BlogBody, w: World, now: int)
    requires GetUserFromContext(ctx) == Some(Claims(0, "", ""))
    requires body.title != "" && body.body != ""
    ensures CreateBlog(ctx, Some(body), Served(w, now)).status == StatusInternalServerError
    ensures CreateBlogSpec(w, body.title, body.description, body.body, 0, now).0 == w
  {
  }

  /** Behind AuthMiddleware, the blog handlers that need a user never answer 401. */
  lemma AuthenticatedBlogHandlers(header: string, validate: Validator, ctx: Context, vars: PathVars,
                                  body: Option<BlogBody>, action: Option<ActionBody>, uc: BlogService)
    requires AuthMiddleware(header, validate, ctx).Next?
    ensures var inner := AuthMiddleware(header, validate, ctx).ctx;
      && CreateBlog(inner, body, uc).status != StatusUnauthorized
      && UpdateBlog(inner, vars, body, uc).status != StatusUnauthorized
      && DeleteBlog(inner, vars, uc).status != StatusUnauthorized
      && LikeBlog(inner, vars, action, uc).status != StatusUnauthorized
  {
    AuthThenContext(header, validate, ctx);
  }
}
