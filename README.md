# blogo core, modelled in Dafny

blogo is a social-blogging backend written in Go. Users register and get
a JWT. They edit their profile, follow and unfollow each other, and write,
edit, delete and like blogs. The code is layered:

- entities (`internal/domain/entity`);
- PostgreSQL repositories (`internal/infrastructure/database`);
- a Redis read-through cache (`internal/infrastructure/cache`);
- use cases that combine the store and the cache (`internal/usecase`);
- HTTP handlers (`internal/delivery/http`);
- the bearer-token middleware (`pkg/auth`).

The model keeps each layer in the form the Go code has.

- **Entities** (`entity.dfy`). `User` and `Blog` are classes, because the Go
  code mutates them in place: `Update` changes them and the repository's
  `Create` writes the new id back into them. Their value form,
  `UserRecord`/`BlogRecord`, is what a table row or a JSON document holds.
  `ValidateUser`/`ValidateBlog` give the validation error of a record.
- **Store** (`store.dfy`, `store_laws.dfy`, `paging.dfy`). The four tables
  (`users`, `blogs`, `followers`, `likes`), the two SERIAL sequences and an
  `online` flag (whether the server answers) form a `DbState`. Every SQL
  statement the repositories run is a pure function on it. The schema's
  constraints are the invariant `Store.Valid`, and every write keeps it.
  The constraints are UNIQUE username and email, foreign keys,
  `CHECK follower_id != following_id`, the UNIQUE follow/like pairs and
  `ON DELETE CASCADE`. The VARCHAR widths act on each INSERT and UPDATE
  as PostgreSQL applies them: a longer value is refused unless every
  excess character is a space, and then it is stored cut to the width
  (`Store.Fits`, `Store.Cut`). `ORDER BY created_at DESC` is a stable
  insertion sort; `LIMIT`/`OFFSET` is `Paging.Page`.
- **Repositories** (`database.dfy`). `Database` is a class holding the
  tables. `UserRepository` and `BlogRepository` are classes whose methods
  commit exactly the store function of their statement. Their row scans
  are loops that build fresh entity objects.
- **Cache** (`cache.dfy`). `RedisCache` is a class over the key space. Go
  calls methods on a possibly-nil `*RedisCache`, so its methods are static
  and take a nullable receiver. `NewRedisCache` answers nil when PING
  fails. The key space is summarised as a `CacheView`, and the cache's
  pure semantics (put, lookup, delete, delete by glob pattern) are
  functions on it.
- **Wiring** (`wiring.dfy`). `cmd/api/main.go` stores a possibly-nil
  `*RedisCache` into a `CacheRepository` interface. The interface is then
  never nil, and a nil adapter acts as "no cache". `CacheRepository`
  models both cases.
- **Use cases** (`user_usecase.dfy`, `blog_usecase.dfy`). Each use case has
  a specification function `XSpec(World, …)` giving the new store, the
  new cache and the result. The `UserUseCase`/`BlogUseCase` class methods
  are proved to do exactly that.
- **Coherence** (`coherence.dfy`). A read-through cache is coherent when
  every entity in its key space equals what the store would answer, whether
  or not the server answers at the moment: Redis keeps its keys through an
  outage (`Cache.WithServer`). The reads keep coherence in every state.
  The writes keep it while their invalidations reach the server or there
  is no cache, with three exceptions. A write during an outage ignores its
  failed DEL, so the old entry is served once the server is back.
  `UpdateUser` keeps cached users coherent, but a cached blog can still
  carry the old author snapshot. `CreateUser` with a value the store cuts
  to its column's width caches the uncut user.
- **HTTP** (`http_helpers.dfy`, `auth.dfy`, `user_handler.dfy`,
  `blog_handler.dfy`). A handler is a pure function of its decoded input
  and the use case's answer. It gives the status code and the use-case
  call it made, if any. `Outcome`/`Served` plug the use-case
  specifications in, so end-to-end facts become lemmas. The middleware is
  a function from the `Authorization` header and a token validator to
  "rejected with 401" or "run the handler with this context".

### Where the code and its documentation differ (the model follows the code)

- A duplicate username or email is a UNIQUE violation. The repository
  wraps it like any other driver error, so the handler answers 500, not
  400 or 409. `UserHandlers.DuplicateUserIs500` proves this.
- When signing the token fails after the user was stored, `CreateUser`
  returns the user together with an error. The handler then answers 500,
  although the user stays created.
- `ErrUserAlreadyExists`, `ErrUnauthorized` and `ErrInvalidID` are declared
  but never produced. The handlers' validation-error branch in `CreateUser`
  cannot be reached: `UserHandlers.CreateUserValidationUnreachable`.
- An authenticated user id of 0 makes `Blog.Validate` fail with
  `ErrInvalidAuthor`. The handler does not map that error, so it answers
  500: `BlogHandlers.ZeroAuthorIs500`.
- `UpdateUser` deletes only `user:<id>`. Cached blogs embed an author
  snapshot, and they keep serving the old profile until their TTL runs
  out: `Coherence.UpdateUserCanLeaveBlogStale`.
- Every cache invalidation error is ignored. A write made while Redis is
  unreachable succeeds in the store, and its stale entry is served again
  once Redis answers: `Coherence.OutageCanLeaveBlogStale`.
- A value whose excess over its VARCHAR width is only spaces is stored cut
  rather than refused, while `CreateUser` caches and returns the value as
  submitted: `Coherence.CreateUserCanCacheUncutValue`.
- `strings.Split(header, " ")` accepts `"Bearer "` with an empty token,
  and the empty token is passed on to the validator:
  `Auth.MalformedHeaders`.

## Model

| member | source | states |
|---|---|---|
| Entity.ValidateUser | internal/domain/entity/user.go:45-56 | no error exactly when username, email and display name are all non-empty; otherwise the error of the first empty field in that order |
| Entity.ValidateBlog | internal/domain/entity/blog.go:40-51 | no error exactly when title and body are non-empty and the author id is not 0; otherwise the error of the first failing check in that order |
| Entity.User.constructor | internal/domain/entity/user.go:25-34 | a new user has id 0, empty bio and image, and created and updated times both `now` |
| Entity.User.FromRecord | internal/infrastructure/database/user_repository.go:39-61 | a scanned or decoded user holds exactly the record's fields |
| Entity.User.Update | internal/domain/entity/user.go:37-42 | only display name, bio, image and update time change, to the given values |
| Entity.Blog.constructor | internal/domain/entity/blog.go:19-29 | a new blog has id 0, no author snapshot, no likes, and both times `now` |
| Entity.Blog.FromRecord | internal/infrastructure/database/blog_repository.go:39-67 | a scanned or decoded blog holds exactly the record's fields |
| Entity.Blog.Update | internal/domain/entity/blog.go:32-37 | only title, description, body and update time change |
| Entity.Blog.IsOwnedBy | internal/domain/entity/blog.go:54-56 | true exactly when the blog's author id is the user |
| Decimal.DigitChar | internal/infrastructure/cache/redis.go:58 | the character of a digit below ten is a decimal digit |
| Decimal.DigitValue | internal/delivery/http/handler.go:36 | a decimal digit's value is below ten |
| Decimal.NatToString | internal/infrastructure/cache/redis.go:58 | `%d` of a natural number is a non-empty string of digits |
| Decimal.NatToStringValue | internal/infrastructure/cache/redis.go:58 | the digits written for n read back as n |
| Decimal.IntToStringSign | internal/infrastructure/cache/redis.go:58 | the text of an integer is non-empty and starts with '-' exactly when the integer is negative |
| Decimal.IntToStringInjective | internal/infrastructure/cache/redis.go:58 | different integers get different texts |
| Decimal.ParseInt | internal/delivery/http/handler.go:36 | a successful parse lies in the int64 range and starts with a digit or a sign |
| Decimal.ParseFormatRoundTrip | internal/delivery/http/handler.go:36 | every int64 written in decimal parses back to itself |
| Paging.Filter | internal/infrastructure/database/blog_repository.go:108-144 | the WHERE clause keeps exactly the rows that satisfy the condition, never adding a row |
| Paging.FilterDistinctKeys | internal/infrastructure/database/postgres.go:97 | filtering keeps a UNIQUE key unique |
| Paging.AppendDistinctKeys | internal/infrastructure/database/postgres.go:97 | appending a row whose key is new keeps the key unique |
| Paging.PageNewestFirst | internal/infrastructure/database/blog_repository.go:81-82 | a LIMIT/OFFSET window of a newest-first list is newest-first |
| Paging.FilterKeepsAll | internal/infrastructure/database/blog_repository.go:70-105 | a condition that holds for every row keeps the list unchanged |
| Paging.FilterKeepsNone | internal/infrastructure/database/blog_repository.go:108-144 | a condition no row satisfies gives the empty list |
| Paging.FilterTwice | internal/infrastructure/database/blog_repository.go:108-144 | filtering twice by one condition is filtering once |
| Paging.FilterOfFilter | internal/infrastructure/database/blog_repository.go:164-185 | filtering by a weaker condition and then a stronger one is filtering by the stronger |
| Paging.FilterAppendRejected | internal/infrastructure/database/blog_repository.go:188-202 | a new row the condition rejects does not change the result |
| Paging.FilterCountDistinct | internal/infrastructure/database/user_repository.go:228-259 | COUNT(*) of rows whose keys are distinct equals the number of distinct keys |
| Paging.Insert | internal/infrastructure/database/blog_repository.go:81 | inserting into the sorted list adds exactly that element |
| Paging.SortNewestFirst | internal/infrastructure/database/blog_repository.go:81 | ORDER BY returns a permutation of its input |
| Paging.ConsNewestFirst | internal/infrastructure/database/blog_repository.go:81 | a newer element in front of a newest-first list keeps it newest-first |
| Paging.InsertNewestFirst | internal/infrastructure/database/blog_repository.go:81 | insertion keeps a list newest-first |
| Paging.SortIsNewestFirst | internal/infrastructure/database/blog_repository.go:81 | ORDER BY created_at DESC returns a list in non-increasing time order |
| Paging.Page | internal/infrastructure/database/blog_repository.go:82 | LIMIT/OFFSET gives at most `limit` rows, the rows from position `offset` on, as many as exist |
| Paging.PagesContiguous | internal/delivery/http/handler.go:43-63 | two adjacent pages together are the page of their combined size |
| Paging.PagesDisjoint | internal/delivery/http/handler.go:43-63 | non-overlapping windows over distinct rows share no row |
| Store.EmptyValid | internal/infrastructure/database/postgres.go:56-117 | freshly created tables satisfy every schema constraint |
| Store.InsertUser | internal/infrastructure/database/user_repository.go:21-36 | the insert succeeds exactly when the server answers, every VARCHAR column takes its value (not longer, or the excess all spaces) and neither the stored username nor the stored email is taken; on success the row, with each value cut to its width, gets a fresh SERIAL id and nothing else changes; on failure nothing changes and the error is a store error; the constraints stay valid |
| Store.FindUser | internal/infrastructure/database/user_repository.go:64-86 | the lookup answers a stored row that matches, or none exactly when no stored row matches |
| Store.UpdateUser | internal/infrastructure/database/user_repository.go:89-103 | only the row with that id changes, and only its display name, bio, image and update time, the VARCHAR ones cut to their widths; id, username, email and creation time stay; no matching row is a silent no-op; it fails exactly when the server does not answer or a new value is too wide with an excess that is not all spaces, and then changes nothing; the constraints stay valid |
| Store.InsertFollow | internal/infrastructure/database/user_repository.go:106-120 | the insert succeeds exactly when the server answers, the users differ, and either the pair exists already (ON CONFLICT DO NOTHING) or both users exist; afterwards the follow exists and every other pair follows exactly as before; a failure changes nothing; the user, blog and like tables are unchanged |
| Store.DeleteFollow | internal/infrastructure/database/user_repository.go:123-136 | the delete succeeds exactly when the server answers; afterwards the pair is absent and every other pair is as before |
| Store.FollowExists | internal/infrastructure/database/user_repository.go:209-225 | answers exactly whether the pair is a follow, whenever the server answers |
| Store.JoinUsers | internal/infrastructure/database/user_repository.go:139-171 | the JOIN never yields more rows than the link table has |
| Store.JoinUsersMembers | internal/infrastructure/database/user_repository.go:139-171 | the JOIN yields exactly the link rows kept by the WHERE clause whose user exists, paired with that user |
| Store.PairTime | internal/infrastructure/database/user_repository.go:148 | the sort key of a joined row is its link time |
| Store.Users | internal/infrastructure/database/user_repository.go:157-168 | projecting the joined rows keeps their order and their users |
| Store.LinkedUsersMembers | internal/infrastructure/database/user_repository.go:139-206 | a user is listed exactly when a kept link row points at them |
| Store.Paged | internal/infrastructure/database/user_repository.go:139-171 | a page is answered exactly when the server answers and limit and offset are not negative, and it is the window of the sorted rows |
| Store.InsertBlog | internal/infrastructure/database/blog_repository.go:21-36 | the insert succeeds exactly when the server answers, the title column takes the title (not longer than 200, or the excess all spaces) and the author exists; on success the row, its title cut to 200, gets a fresh id and nothing else changes; the constraints stay valid |
| Store.BlogsInTable | internal/infrastructure/database/blog_repository.go:70-105 | the table scan yields exactly the stored blog rows |
| Store.JoinAuthors | internal/infrastructure/database/blog_repository.go:70-105 | the JOIN with users yields exactly the rows whose author exists, each with its author and like count |
| Store.UpdateBlog | internal/infrastructure/database/blog_repository.go:147-161 | only the row matching both id and author changes, and only its title (cut to its width), description, body and update time; id, author and creation time stay; an id/author mismatch silently changes nothing; it fails exactly when the server does not answer or the title is too wide with an excess that is not all spaces, and then changes nothing; the constraints stay valid |
| Store.DeleteBlog | internal/infrastructure/database/blog_repository.go:164-185 | the delete succeeds exactly when the server answers and the author owns the blog; it removes that blog and, by cascade, exactly its likes, and leaves the users, the follows and both sequences alone; otherwise nothing changes, and "not found" is answered exactly when the server answers but no row matches |
| Store.InsertLike | internal/infrastructure/database/blog_repository.go:188-202 | the insert succeeds exactly when the server answers and the like exists already or both the blog and the user exist; afterwards the like exists and every other pair likes exactly as before; a failure changes nothing; the user, blog and follow tables are unchanged |
| Store.DeleteLike | internal/infrastructure/database/blog_repository.go:205-218 | the delete succeeds exactly when the server answers; afterwards the like is absent and every other like is as before |
| Store.LikeExists | internal/infrastructure/database/blog_repository.go:256-272 | answers exactly whether the user likes the blog, whenever the server answers |
| Store.InsertFollowKeepsValid | internal/infrastructure/database/postgres.go:91-99 | following keeps the UNIQUE, CHECK and foreign-key constraints |
| Store.DeleteFollowKeepsValid | internal/infrastructure/database/user_repository.go:123-136 | unfollowing keeps the schema constraints |
| Store.DeleteBlogKeepsValid | internal/infrastructure/database/postgres.go:109 | deleting a blog (and by cascade its likes) keeps the foreign keys valid |
| Store.InsertLikeKeepsValid | internal/infrastructure/database/postgres.go:106-113 | liking keeps the UNIQUE pair and the foreign keys |
| Store.DeleteLikeKeepsValid | internal/infrastructure/database/blog_repository.go:205-218 | unliking keeps the schema constraints |
| StoreLaws.InsertUserThenSelect | internal/infrastructure/database/user_repository.go:21-86 | a user just inserted is found, as stored, by its new id and by its stored username; values within their widths come back exactly as given |
| StoreLaws.SelectByUsernameFinds | internal/infrastructure/database/user_repository.go:64-86 | the lookup by username answers the stored user of that name, and "not found" exactly when no user has it |
| StoreLaws.FollowIdempotent | internal/infrastructure/database/user_repository.go:106-120 | following twice is following once (ON CONFLICT DO NOTHING) |
| StoreLaws.UnfollowAbsentNoop | internal/infrastructure/database/user_repository.go:123-136 | unfollowing a pair that does not exist succeeds and changes nothing |
| StoreLaws.FollowThenUnfollow | internal/infrastructure/database/user_repository.go:106-136 | follow then unfollow leaves the pair absent and every other follow as it was |
| StoreLaws.FollowersCountIsCardinality | internal/infrastructure/database/user_repository.go:234-240 | the followers COUNT(*) is the number of distinct followers |
| StoreLaws.FollowingCountIsCardinality | internal/infrastructure/database/user_repository.go:242-248 | the following COUNT(*) is the number of distinct followed users |
| StoreLaws.LikeCountIsCardinality | internal/infrastructure/database/blog_repository.go:47 | a blog's like count is the number of distinct likers |
| StoreLaws.FollowersListed | internal/infrastructure/database/user_repository.go:139-171 | GetFollowers' JOIN lists exactly the stored users who follow the user |
| StoreLaws.FollowingListed | internal/infrastructure/database/user_repository.go:174-206 | GetFollowing's JOIN lists exactly the stored users the user follows |
| StoreLaws.LikersListed | internal/infrastructure/database/blog_repository.go:221-253 | GetLikes' JOIN lists exactly the stored users who like the blog |
| StoreLaws.InsertBlogThenSelect | internal/infrastructure/database/blog_repository.go:21-67 | a blog just inserted is read back with its new id, its title as stored, its author's row and zero likes |
| StoreLaws.LikeIdempotent | internal/infrastructure/database/blog_repository.go:188-202 | liking twice is liking once |
| StoreLaws.UnlikeAbsentNoop | internal/infrastructure/database/blog_repository.go:205-218 | removing an absent like succeeds and changes nothing |
| StoreLaws.DeleteBlogRemovesLikes | internal/infrastructure/database/blog_repository.go:164-185 | after a delete the blog is not found and no like refers to it |
| StoreLaws.RowOfJoined | internal/infrastructure/database/blog_repository.go:39-67 | joining a row with its author loses none of the row's columns |
| StoreLaws.BlogListMembers | internal/infrastructure/database/blog_repository.go:70-144 | a blog is listed exactly when GetByID would answer it and it satisfies the listing's condition |
| StoreLaws.BlogPagesNewestFirst | internal/infrastructure/database/blog_repository.go:70-144 | every page of GetAll and GetByAuthor is newest first |
| StoreLaws.ByAuthorOnlyAuthor | internal/infrastructure/database/blog_repository.go:108-144 | GetByAuthor lists only that author's blogs |
| Database.Database.constructor | internal/infrastructure/database/postgres.go:56-134 | a database starts with empty tables that satisfy the schema |
| Database.Database.Commit | internal/infrastructure/database/postgres.go:56-134 | the tables become exactly the given state |
| Database.UserRecords | internal/infrastructure/database/user_repository.go:157-168 | the records of a list of users, in order |
| Database.BlogRecords | internal/infrastructure/database/blog_repository.go:89-102 | the records of a list of blogs, in order |
| Database.ScanUsers | internal/infrastructure/database/user_repository.go:157-168 | the rows loop builds one fresh user per row, in row order, each holding its row |
| Database.ScanBlogs | internal/infrastructure/database/blog_repository.go:89-102 | the rows loop builds one fresh blog per row, in row order, each holding its row |
| Database.UserRepository.constructor | internal/infrastructure/database/user_repository.go:16-18 | the repository works on the given database |
| Database.UserRepository.Create | internal/infrastructure/database/user_repository.go:21-36 | the tables become InsertUser's result; on success the user object gets the new id, on failure it is unchanged and the error is returned; validity is kept |
| Database.UserRepository.GetByID | internal/infrastructure/database/user_repository.go:39-61 | a fresh user holding the row when the id is stored, otherwise the store's error |
| Database.UserRepository.GetByUsername | internal/infrastructure/database/user_repository.go:64-86 | a fresh user holding the row of that username, otherwise the store's error |
| Database.UserRepository.Update | internal/infrastructure/database/user_repository.go:89-103 | the tables and the error are UpdateUser's result |
| Database.UserRepository.Follow | internal/infrastructure/database/user_repository.go:106-120 | the tables and the error are InsertFollow's result |
| Database.UserRepository.Unfollow | internal/infrastructure/database/user_repository.go:123-136 | the tables and the error are DeleteFollow's result |
| Database.UserRepository.GetFollowers | internal/infrastructure/database/user_repository.go:139-171 | fresh users holding exactly the page of followers, newest follow first, or the error |
| Database.UserRepository.GetFollowing | internal/infrastructure/database/user_repository.go:174-206 | fresh users holding exactly the page of followed users, or the error |
| Database.UserRepository.IsFollowing | internal/infrastructure/database/user_repository.go:209-225 | true exactly when the server answers and the follow exists; an error exactly when the server does not answer |
| Database.UserRepository.GetStats | internal/infrastructure/database/user_repository.go:228-259 | the three counts, or the error of the first failing query |
| Database.BlogRepository.constructor | internal/infrastructure/database/blog_repository.go:16-18 | the repository works on the given database |
| Database.BlogRepository.Create | internal/infrastructure/database/blog_repository.go:21-36 | the tables become InsertBlog's result; the blog object gets the new id on success and is unchanged on failure |
| Database.BlogRepository.GetByID | internal/infrastructure/database/blog_repository.go:39-67 | a fresh blog holding the joined row, its author and like count, or the error |
| Database.BlogRepository.GetAll | internal/infrastructure/database/blog_repository.go:70-105 | fresh blogs holding exactly the newest-first page of all blogs, or the error |
| Database.BlogRepository.GetByAuthor | internal/infrastructure/database/blog_repository.go:108-144 | fresh blogs holding exactly the newest-first page of the author's blogs, or the error |
| Database.BlogRepository.Update | internal/infrastructure/database/blog_repository.go:147-161 | the tables and the error are UpdateBlog's result |
| Database.BlogRepository.Delete | internal/infrastructure/database/blog_repository.go:164-185 | the tables and the error are DeleteBlog's result |
| Database.BlogRepository.Like | internal/infrastructure/database/blog_repository.go:188-202 | the tables and the error are InsertLike's result |
| Database.BlogRepository.Unlike | internal/infrastructure/database/blog_repository.go:205-218 | the tables and the error are DeleteLike's result |
| Database.BlogRepository.GetLikes | internal/infrastructure/database/blog_repository.go:221-253 | fresh users holding exactly the page of likers, newest like first, or the error |
| Database.BlogRepository.IsLikedBy | internal/infrastructure/database/blog_repository.go:256-272 | true exactly when the server answers and the like exists; an error exactly when it does not answer |
| Cache.KeysDistinct | internal/infrastructure/cache/redis.go:58-144 | `user:%d` and `blog:%d` are injective and never collide |
| Cache.StarMatchesEverything | internal/infrastructure/cache/redis.go:149-161 | the pattern `*` matches every key |
| Cache.PrefixPattern | internal/infrastructure/cache/redis.go:149-161 | a literal prefix followed by `*` matches exactly the keys with that prefix |
| Cache.BlogListPatternSparesEntities | internal/usecase/blog_usecase.go:41 | `blogs:*` matches no `user:` and no `blog:` key |
| Cache.AbsentIsInert | internal/infrastructure/cache/redis.go:53-161 | on a nil cache every write is a no-op without error and every read fails with "not available" |
| Cache.PutUserThenLookup | internal/infrastructure/cache/redis.go:53-88 | after SetUser that user reads back as written and every other entry reads as before |
| Cache.PutBlogThenLookup | internal/infrastructure/cache/redis.go:101-136 | after SetBlog that blog reads back as written and every other entry reads as before |
| Cache.RemoveUserThenLookup | internal/infrastructure/cache/redis.go:68-98 | after DeleteUser that user is a miss and every other entry reads as before |
| Cache.RemoveBlogThenLookup | internal/infrastructure/cache/redis.go:116-146 | after DeleteBlog that blog is a miss and every other entry reads as before |
| Cache.RemoveBlogListKeepsEntities | internal/usecase/blog_usecase.go:41 | deleting `blogs:*` leaves every user and blog lookup as it was |
| Cache.RedisCache.constructor | internal/infrastructure/cache/redis.go:21-42 | a cache over an empty key space with the given reachability |
| Cache.RedisCache.Connect | internal/infrastructure/cache/redis.go:21-42 | non-nil exactly when PING succeeds, and then an empty reachable cache |
| Cache.RedisCache.SetUser | internal/infrastructure/cache/redis.go:53-65 | the new key space and the error are PutUser's result |
| Cache.RedisCache.GetUser | internal/infrastructure/cache/redis.go:68-88 | a fresh user holding the cached record, or LookupUser's error |
| Cache.RedisCache.DeleteUser | internal/infrastructure/cache/redis.go:91-98 | the new key space and the error are those of deleting `user:<id>` |
| Cache.RedisCache.SetBlog | internal/infrastructure/cache/redis.go:101-113 | the new key space and the error are PutBlog's result |
| Cache.RedisCache.GetBlog | internal/infrastructure/cache/redis.go:116-136 | a fresh blog holding the cached record, or LookupBlog's error |
| Cache.RedisCache.DeleteBlog | internal/infrastructure/cache/redis.go:139-146 | the new key space and the error are those of deleting `blog:<id>` |
| Cache.RedisCache.DeletePattern | internal/infrastructure/cache/redis.go:149-161 | the SCAN/DEL loop removes exactly the keys matching the pattern |
| Wiring.NilCacheEitherWay | cmd/api/main.go:38-50 | a nil interface and an interface holding a nil adapter both act as no cache |
| UserFlows.CreateUserInvalidWritesNothing | internal/usecase/user_usecase.go:26-33 | an empty username, email or display name changes neither store nor cache and answers the validation error |
| UserFlows.CreateUserCachesUser | internal/usecase/user_usecase.go:26-52 | a created user has a fresh id, is cached as returned and stored with its values cut to their widths, and the error is the token error exactly when signing fails |
| UserFlows.CreateUserStoresInput | internal/usecase/user_usecase.go:26-36 | the created user holds the given names and email, empty bio and image, and both times `now` |
| UserFlows.RegisterThenGet | internal/usecase/user_usecase.go:26-75 | a user just created is answered by GetUserByID: as returned from a live cache, even with the store offline, and otherwise as the store holds it |
| UserFlows.GetUserByIDHit | internal/usecase/user_usecase.go:55-62 | a cache hit is answered as cached, with nothing changed and whatever the store holds |
| UserFlows.GetUserByIDMiss | internal/usecase/user_usecase.go:55-75 | on a miss the answer is the store's, the store is unchanged, a failure changes nothing, and a found user is cached |
| UserFlows.GetUserByIDChangesNoTable | internal/usecase/user_usecase.go:55-90 | reading a user never changes the store or any cached blog, and the stats read adds no cache change |
| UserFlows.GetUserWithStatsResults | internal/usecase/user_usecase.go:78-90 | the profile is the lookup's error, or the user with the stats error, or the user with its three counts |
| UserFlows.UpdateUserEffect | internal/usecase/user_usecase.go:93-114 | a successful update stores the old row with the new profile fields (cut to their widths) and time, drops `user:<id>`, and answers the updated user; the cache does not influence the result; a failure leaves the cache alone |
| UserFlows.FollowSelfRefused | internal/usecase/user_usecase.go:117-121 | following oneself is refused with ErrCannotFollowSelf and changes nothing |
| UserFlows.FollowInvalidatesBoth | internal/usecase/user_usecase.go:117-148 | a successful follow or unfollow sets the pair in the store, evicts both users from the cache, and keeps every other entry |
| UserFlows.ForgetBothLookups | internal/usecase/user_usecase.go:127-131 | evicting two users makes both misses and keeps every other entry |
| UserFlows.UnfollowSelfAllowed | internal/usecase/user_usecase.go:136-148 | unfollowing oneself is not refused: it succeeds exactly when the store answers |
| UserFlows.UserFlowsKeepValid | internal/usecase/user_usecase.go:26-148 | every user use case keeps the schema constraints |
| UserFlows.UserUseCase.constructor | internal/usecase/user_usecase.go:17-23 | the use case works on the given repositories |
| UserFlows.UserUseCase.CreateUser | internal/usecase/user_usecase.go:26-52 | the new store, cache, user, token and error are exactly CreateUserSpec's |
| UserFlows.UserUseCase.GetUserByID | internal/usecase/user_usecase.go:55-75 | the new cache, user and error are exactly GetUserByIDSpec's |
| UserFlows.UserUseCase.GetUserWithStats | internal/usecase/user_usecase.go:78-90 | the new cache, user, stats and error are exactly GetUserWithStatsSpec's |
| UserFlows.UserUseCase.UpdateUser | internal/usecase/user_usecase.go:93-114 | the new store, cache, user and error are exactly UpdateUserSpec's |
| UserFlows.UserUseCase.FollowUser | internal/usecase/user_usecase.go:117-133 | the new store, cache and error are exactly FollowUserSpec's |
| UserFlows.UserUseCase.UnfollowUser | internal/usecase/user_usecase.go:136-148 | the new store, cache and error are exactly UnfollowUserSpec's |
| UserFlows.UserUseCase.GetFollowers | internal/usecase/user_usecase.go:151-153 | the repository's page of followers, read without the cache |
| UserFlows.UserUseCase.GetFollowing | internal/usecase/user_usecase.go:156-158 | the repository's page of followed users, read without the cache |
| BlogFlows.CreateBlogInvalidWritesNothing | internal/usecase/blog_usecase.go:25-30 | an empty title or body or a zero author changes nothing and answers the validation error |
| BlogFlows.CreateBlogEffect | internal/usecase/blog_usecase.go:25-45 | a created blog has a fresh id and reads back with its author and its title as stored; only `blogs:*` keys leave the cache and no entity lookup changes |
| BlogFlows.GetBlogByIDHit | internal/usecase/blog_usecase.go:48-55 | a cache hit is answered as cached, with nothing changed and whatever the store holds |
| BlogFlows.GetBlogByIDMiss | internal/usecase/blog_usecase.go:48-68 | on a miss the answer is the store's, a failure changes nothing, and a found blog is cached |
| BlogFlows.NonOwnerRefused | internal/usecase/blog_usecase.go:81-140 | editing or deleting another author's blog is refused with ErrNotBlogOwner and changes nothing |
| BlogFlows.MissingBlogReported | internal/usecase/blog_usecase.go:81-140 | editing or deleting a blog that does not exist answers ErrBlogNotFound and changes nothing |
| BlogFlows.UpdateBlogRevalidates | internal/usecase/blog_usecase.go:94-99 | an owner's edit that empties the title or body is refused with that validation error and changes nothing |
| BlogFlows.UpdateBlogThenGet | internal/usecase/blog_usecase.go:81-113 | a successful edit answers the stored blog with the new content and time, evicts `blog:<id>`, and a later GetBlogByID answers the same with the title as stored |
| BlogFlows.DeleteBlogEffect | internal/usecase/blog_usecase.go:116-140 | the owner's delete is the store's delete; afterwards the blog is not found, has no likes, and is evicted |
| BlogFlows.LikeInvalidatesOnlyBlog | internal/usecase/blog_usecase.go:143-168 | a successful like or unlike sets the like in the store and evicts exactly `blog:<id>` |
| BlogFlows.BlogFlowsKeepValid | internal/usecase/blog_usecase.go:25-168 | every blog use case keeps the schema constraints |
| BlogFlows.BlogUseCase.constructor | internal/usecase/blog_usecase.go:16-22 | the use case works on the given repositories |
| BlogFlows.BlogUseCase.CreateBlog | internal/usecase/blog_usecase.go:25-45 | the new store, cache, blog and error are exactly CreateBlogSpec's |
| BlogFlows.BlogUseCase.GetBlogByID | internal/usecase/blog_usecase.go:48-68 | the new cache, blog and error are exactly GetBlogByIDSpec's |
| BlogFlows.BlogUseCase.GetAllBlogs | internal/usecase/blog_usecase.go:71-73 | the repository's newest-first page, read without the cache |
| BlogFlows.BlogUseCase.GetBlogsByAuthor | internal/usecase/blog_usecase.go:76-78 | the repository's page of the author's blogs, without the cache |
| BlogFlows.BlogUseCase.UpdateBlog | internal/usecase/blog_usecase.go:81-113 | the new store, cache, blog and error are exactly UpdateBlogSpec's |
| BlogFlows.BlogUseCase.DeleteBlog | internal/usecase/blog_usecase.go:116-140 | the new store, cache and error are exactly DeleteBlogSpec's |
| BlogFlows.BlogUseCase.LikeBlog | internal/usecase/blog_usecase.go:143-154 | the new store, cache and error are exactly LikeBlogSpec's |
| BlogFlows.BlogUseCase.UnlikeBlog | internal/usecase/blog_usecase.go:157-168 | the new store, cache and error are exactly UnlikeBlogSpec's |
| BlogFlows.BlogUseCase.GetBlogLikes | internal/usecase/blog_usecase.go:171-173 | the repository's page of likers, without the cache |
| Coherence.EmptyCacheCoherent | cmd/api/main.go:38-50 | no cache, and an empty cache, are coherent with any store |
| Coherence.CacheIsTransparent | internal/usecase/user_usecase.go:55-75 | with a coherent cache, reachable or not, and a store that answers, GetUserByID and GetBlogByID answer what the store holds |
| Coherence.RemoveKeepsCoherent | internal/infrastructure/cache/redis.go:91-161 | deleting a key or a pattern never creates a hit, and it never changes one |
| Coherence.ForgetBothShrinks | internal/usecase/user_usecase.go:127-131 | evicting two users never creates or changes a hit |
| Coherence.ForgetBlogShrinks | internal/usecase/blog_usecase.go:105-110 | evicting a blog and the list keys keeps user lookups, removes that blog, and changes no other hit |
| Coherence.CreateUserKeepsCoherent | internal/usecase/user_usecase.go:26-52 | registering values that fit their columns, with invalidations reaching the cache, keeps it coherent: the cached new user is the stored one |
| Coherence.GetUserByIDKeepsCoherent | internal/usecase/user_usecase.go:55-90 | filling the cache on a miss keeps it coherent, for both user reads |
| Coherence.UpdateUserKeepsUsersCoherent | internal/usecase/user_usecase.go:93-114 | with invalidations reaching the cache, a profile update keeps cached users coherent |
| Coherence.FollowKeepsCoherent | internal/usecase/user_usecase.go:117-148 | with invalidations reaching the cache, follow and unfollow keep it coherent |
| Coherence.CreateBlogKeepsCoherent | internal/usecase/blog_usecase.go:25-45 | with invalidations reaching the cache, writing a blog keeps it coherent |
| Coherence.GetBlogByIDKeepsCoherent | internal/usecase/blog_usecase.go:48-68 | filling the cache on a blog miss keeps it coherent |
| Coherence.SameJoin | internal/infrastructure/database/blog_repository.go:39-67 | the joined blog depends only on the users, the blogs and the like count |
| Coherence.UpdateBlogAt | internal/usecase/blog_usecase.go:81-113 | after an edit, any blog still cached is what the store holds |
| Coherence.UpdateBlogKeepsCoherent | internal/usecase/blog_usecase.go:81-113 | with invalidations reaching the cache, editing a blog keeps it coherent |
| Coherence.DeleteKeepsOtherJoin | internal/infrastructure/database/blog_repository.go:164-185 | deleting one blog, with its likes by cascade, leaves every other blog's join unchanged |
| Coherence.DeleteBlogAt | internal/usecase/blog_usecase.go:116-140 | after a delete, any blog still cached is what the store holds |
| Coherence.DeleteBlogKeepsCoherent | internal/usecase/blog_usecase.go:116-140 | with invalidations reaching the cache, deleting a blog keeps it coherent |
| Coherence.OtherCountsKept | internal/infrastructure/database/blog_repository.go:188-218 | a like or unlike changes no other blog's like count |
| Coherence.LikeAt | internal/usecase/blog_usecase.go:143-154 | after a like, any blog still cached is what the store holds |
| Coherence.UnlikeAt | internal/usecase/blog_usecase.go:157-168 | after an unlike, any blog still cached is what the store holds |
| Coherence.LikeKeepsCoherent | internal/usecase/blog_usecase.go:143-168 | with invalidations reaching the cache, like and unlike keep it coherent |
| Coherence.UpdateUserCanLeaveBlogStale | internal/usecase/user_usecase.go:108-111 | from a coherent state, renaming a blog's author leaves GetBlogByID serving the old author snapshot, so the cache is no longer coherent |
| Coherence.OutageKeepsCoherent | internal/infrastructure/cache/redis.go:20-42 | the server dropping or coming back neither makes nor breaks coherence, since the keys survive the outage |
| Coherence.OutageCanLeaveBlogStale | internal/usecase/blog_usecase.go:101-110 | from a coherent state, an UpdateBlog made while Redis is unreachable succeeds, and once Redis is back GetBlogByID serves the old blog; the cache is no longer coherent |
| Coherence.CreateUserCanCacheUncutValue | internal/usecase/user_usecase.go:35-43 | registering "alice" followed by 46 spaces stores a 50-character username but caches and returns the 51-character one, so the cache is no longer coherent |
| HttpHelpers.GetIDFromPath | internal/delivery/http/handler.go:33-41 | an id is answered only for a present variable, and it is in the int64 range |
| HttpHelpers.MissingIDRejected | internal/delivery/http/handler.go:33-41 | a missing path variable is an invalid id |
| HttpHelpers.PathIDRoundTrip | internal/delivery/http/handler.go:33-41 | every int64 sent in the path is read back as itself |
| HttpHelpers.GetPaginationParams | internal/delivery/http/handler.go:43-63 | the limit is in 1..100 and the offset is not negative; an absent value gives the default; a non-default value is the parsed one; a parsed value in range is taken |
| HttpHelpers.PaginationRoundTrip | internal/delivery/http/handler.go:43-63 | any limit in range and any offset sent as decimal text is taken as sent |
| HttpHelpers.PaginationOutOfRange | internal/delivery/http/handler.go:49-60 | a limit of 0 or 101, a negative offset and an unparsable offset fall back to the defaults; 100 and 0 are taken |
| Auth.Split | pkg/auth/jwt.go:81 | strings.Split on " " gives at least one piece, no piece holds a space, and joining the pieces gives the input back |
| Auth.SplitJoin | pkg/auth/jwt.go:81 | splitting undoes joining when no piece holds a space |
| Auth.SplitWord | pkg/auth/jwt.go:81 | a word without spaces splits into itself |
| Auth.SplitWordThenSpace | pkg/auth/jwt.go:81 | a word, a space and the rest split into the word, then the pieces of the rest |
| Auth.BearerTokenExactly | pkg/auth/jwt.go:81-85 | a header yields token t exactly when it is "Bearer " followed by t and t holds no space |
| Auth.BearerTokenShape | pkg/auth/jwt.go:81-85 | a header is accepted exactly when it starts with "Bearer " and the rest holds no space, and the token is that rest |
| Auth.MalformedHeaders | pkg/auth/jwt.go:81-85 | lower-case "bearer", a missing token, extra parts, a double space and the empty header are refused; "Bearer " passes with an empty token |
| Auth.AuthMiddleware | pkg/auth/jwt.go:73-97 | every refusal is 401; an empty header is refused; the handler runs exactly when the header is well formed and the token validates, with those claims under "user" |
| Auth.AuthMiddlewareAdmits | pkg/auth/jwt.go:73-97 | the handler runs exactly for "Bearer " and a space-free token the validator accepts |
| Auth.OptionalAuthMiddleware | pkg/auth/jwt.go:100-115 | the handler always runs, with the claims added exactly when AuthMiddleware would have admitted the request |
| Auth.GetUserFromContext | pkg/auth/jwt.go:118-124 | claims are found exactly when the context holds claims under "user", and they are those claims |
| Auth.AuthThenContext | pkg/auth/jwt.go:73-124 | behind AuthMiddleware a handler finds exactly the token's claims |
| UserHandlers.CreateUser | internal/delivery/http/user_handler.go:24-55 | the use case is called exactly for a decoded body with all three fields non-empty (otherwise 400); 201 exactly on success, 400 exactly for a validation error, else 500 |
| UserHandlers.GetUser | internal/delivery/http/user_handler.go:58-79 | the use case is called exactly for a valid path id (otherwise 400); 200 on success, 404 exactly for ErrUserNotFound, else 500 |
| UserHandlers.UpdateUser | internal/delivery/http/user_handler.go:82-119 | 401 without claims; the call is made exactly when the path id is the caller's own and the body decodes; another user's id gives 403; 200 on success, else 500 |
| UserHandlers.FollowUser | internal/delivery/http/user_handler.go:122-165 | 401 without claims; the call is made exactly for a valid id and the action "follow" or "unfollow", choosing the matching use case; 200 on success, 400 exactly for ErrCannotFollowSelf, else 500 |
| UserHandlers.ListUsers | internal/delivery/http/user_handler.go:168-211 | for a valid id the followers or following use case is called with the pagination parameters (otherwise 400); 200 on success, else 500 |
| UserHandlers.ListUsersBounded | internal/delivery/http/user_handler.go:168-211 | the page asked of the use case always has a limit in 1..100 and a non-negative offset |
| UserHandlers.CreateUserValidationUnreachable | internal/delivery/http/user_handler.go:36-49 | with the real use case, CreateUser answers 400 only before calling it |
| UserHandlers.DuplicateUserIs500 | internal/delivery/http/user_handler.go:41-49 | registering a username or email that is taken once stored answers 500 and changes nothing |
| UserHandlers.StatsFailureIs500 | internal/delivery/http/user_handler.go:65-73 | a cached user whose stats cannot be read answers 500, although the user was found |
| UserHandlers.AuthenticatedUserHandlers | cmd/api/main.go:62-76 | behind AuthMiddleware, UpdateUser and FollowUser never answer 401 |
| BlogHandlers.OwnerErrorStatus | internal/delivery/http/blog_handler.go:119-130 | 403 exactly for ErrNotBlogOwner, 404 exactly for ErrBlogNotFound, otherwise 500 |
| BlogHandlers.CreateBlog | internal/delivery/http/blog_handler.go:24-53 | 401 without claims; the call is made exactly when the body decodes, with the caller as author; 201 on success, 400 exactly for an invalid title or body, else 500 |
| BlogHandlers.GetBlogs | internal/delivery/http/blog_handler.go:56-70 | GetAllBlogs is always called with the pagination parameters; 200 on success, else 500 |
| BlogHandlers.GetBlog | internal/delivery/http/blog_handler.go:73-91 | called exactly for a valid id (otherwise 400); 200 on success, 404 exactly for ErrBlogNotFound, else 500 |
| BlogHandlers.UpdateBlog | internal/delivery/http/blog_handler.go:94-133 | 401 without claims; called exactly for a valid id and a decoded body, as the caller; 200 on success, otherwise the owner-error status |
| BlogHandlers.DeleteBlog | internal/delivery/http/blog_handler.go:136-166 | 401 without claims; called exactly for a valid id, as the caller; 200 on success, otherwise the owner-error status |
| BlogHandlers.LikeBlog | internal/delivery/http/blog_handler.go:169-208 | 401 without claims; called exactly for a valid id and the action "like" or "unlike", choosing the matching use case; 200 on success, else 500 |
| BlogHandlers.GetBlogLikes | internal/delivery/http/blog_handler.go:211-231 | called exactly for a valid id, with the pagination parameters (otherwise 400); 200 on success, else 500 |
| BlogHandlers.NonOwnerForbidden | internal/delivery/http/blog_handler.go:94-166 | editing or deleting another author's blog answers 403 and changes nothing |
| BlogHandlers.MissingBlogNotFound | internal/delivery/http/blog_handler.go:73-166 | reading, editing or deleting a blog that is neither stored nor cached answers 404 |
| BlogHandlers.ZeroAuthorIs500 | internal/delivery/http/blog_handler.go:42-50 | a token for user id 0 makes CreateBlog answer 500 and write nothing |
| BlogHandlers.AuthenticatedBlogHandlers | cmd/api/main.go:62-76 | behind AuthMiddleware, CreateBlog, UpdateBlog, DeleteBlog and LikeBlog never answer 401 |

## Left out

- Concurrency: the RWMutex of the database handle and of the cache adapter, and concurrent requests, are not modelled. Each operation runs alone.
- TTL expiry: an entry keeps its expiration, but nothing ever expires.
- JSON encoding and decoding are taken to be the identity on records. Marshal failures are not modelled. A document that is not a user or blog decodes to a decode error.
- SQL text, the driver and row-scan errors: each statement is its effect on the tables. Scanning never fails.
- Row order before ORDER BY is table order; equal created_at values keep that order.
- Cache.RedisCache.DeletePattern: a DEL that fails after a SCAN succeeded is not modelled, because reachability is fixed within one call.
- Cache.RedisCache: reachability is a constant of the object. An outage and a recovery between calls are modelled on the key space (`Cache.WithServer`), not as a change to a RedisCache object.
- Coherence.CreateUserKeepsCoherent, Coherence.UpdateUserKeepsUsersCoherent, Coherence.FollowKeepsCoherent, Coherence.CreateBlogKeepsCoherent, Coherence.UpdateBlogKeepsCoherent, Coherence.DeleteBlogKeepsCoherent, Coherence.LikeKeepsCoherent: proved only when the cache is absent or its server answers (`Coherence.Up`). A write during an outage can leave a stale entry that is served after recovery (`Coherence.OutageCanLeaveBlogStale`).
- Coherence.CreateUserKeepsCoherent: proved only for values within their columns' widths. For a value the store cuts, the code caches the uncut user (`Coherence.CreateUserCanCacheUncutValue`).
- Cache.Matches: Redis glob brackets `[...]` and backslash escapes are not modelled. Only `*`, `?` and literal characters are, which covers the one pattern the code uses.
- UserHandlers.GetUser, BlogHandlers.MissingBlogNotFound: ids are unbounded in the store, while the id columns are 32-bit INTEGER (SERIAL). A path id above 2147483647 that still parses as an int64 makes PostgreSQL refuse the statement's parameter, so Go answers 500 where the model answers 404. Overflow of the SERIAL sequence is not modelled either.
- Store.InsertUser, Store.InsertBlog: a failed insert does not consume a sequence value, so SERIAL gaps are not modelled.
- Timestamps: NOW() and time.Now are integer parameters; their precision and time zones are not modelled.
- Token signing and validation (HMAC-SHA256, JWT_SECRET, the 24-hour expiry, GenerateToken and ValidateToken) are oracle parameters.
- Response bodies and error messages are not modelled; a handler's result is its status code and the use-case call it made. pkg/response/json.go and the health-check handler are not part of this model.
- Request decoding: a body that does not decode is an absent body.
- Bootstrapping and routing: environment variables, the server and the gorilla/mux router are not modelled. The routes are represented only by which handlers sit behind AuthMiddleware.
- The table DDL in postgres.go: its effect is the invariant Store.Valid and the width constants.
- The legacy packages tables/, main.go and api.go, and cmd/seed, are not part of this model.
- The repository interfaces under internal/domain/repository only declare method sets that the classes implement. Close is not modelled.
- Database.UserRepository.GetStats: a failure between two of its three queries is not modelled. The server answers for a whole call or not at all.
