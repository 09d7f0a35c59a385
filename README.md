# Blog backend: data layer and request handlers

A Dafny model of the core of a small FastAPI blogging backend. Users register
and are looked up by id. Authenticated users list posts with their vote
counts, read one post, and create, update and delete posts. Only the owner of
a post may update or delete it. The data lives in three PostgreSQL tables:
`users`, `posts` and `votes`.

Modules, one file each:

- `Base` (`base.dfy`): `Option`, the handler `Result`, and the errors a
  handler can end in: `NotFound` (404), `Forbidden` (403), and an uncaught
  database failure (500).
- `Models` (`models.dfy`): the three row types. `Tables` holds the contents
  of the tables, and `Tables.Consistent` states the constraints the schema
  declares: primary keys, the unique email, the foreign keys. `Tables.DeletePost`
  and `Tables.DeleteUser` are the deletes together with their `ON DELETE
  CASCADE` effects. `Store` is the database as a class: the three tables plus
  the two serial sequences that hand out ids. Its methods are INSERT, UPDATE
  and DELETE statements on these tables, and each one keeps `Valid()`. The
  handlers modelled here issue all of them except `DeleteUser` and
  `InsertVote`. `DeleteUser` is a plain `DELETE FROM users` together with the
  schema's cascades. `InsertVote` models only the constraints of the `votes`
  table, since the vote router is not part of this model.
- `Schemas` (`schemas.dfy`): the request and response records with their
  defaults (`published` is true, `TokenData.id` is absent) and the `Literal[0, 1]`
  vote direction. It also holds the views that turn rows into `UserOut` and
  `Post` responses, which never carry a password.
- `PostRouter` (`post_router.dfy`): `get_posts` and `get_post` as functions
  over a `Tables` snapshot. `create_post`, `update_post` and `delete_post` are
  methods over a `Store`.
- `UserRouter` (`user_router.dfy`): `get_user` as a function, and
  `create_user` as a method that is given the password hasher as a parameter.

Where the code does something a reader might not expect, the model follows the code:

- `get_post` does not filter by `id`. It runs the grouped join with no WHERE
  clause and no ORDER BY, and takes the first row. It answers NotFound only
  when there are no posts at all. Otherwise it answers with some post, which
  may not be the one requested. See "## Findings".
- `create_user` does not answer 409 for an email that is already registered.
  The UNIQUE constraint makes the commit fail, and nothing catches the error.
  The model returns `StorageFailure(UniqueViolation)`, which reaches the client
  as a 500.
- A negative `limit` is sent to PostgreSQL as is. PostgreSQL refuses it ("LIMIT
  must not be negative"), so the model returns `StorageFailure(NegativeLimit)`.
- Ids come from PostgreSQL serial sequences. A failed INSERT still uses up the
  id it drew. The model's sequences therefore advance on failed inserts too.

## Model

| member | source | states |
|---|---|---|
| `Base.StatusCode` | app/routers/post.py:74-80 | NotFound maps to 404 and Forbidden to 403; a database failure, which no handler catches, maps to 500; each holds in both directions |
| `Models.PublishedColumn` | app/models.py:33 | an INSERT that leaves out `published` stores TRUE; a supplied value is stored as given |
| `Models.NoVotesCountZero` | app/routers/post.py:22-23 | under the outer join, a post that no vote row references has count 0 |
| `Models.DeletePostKeepsSchema` | app/models.py:43 | deleting a post from consistent tables leaves them consistent; the post is gone; exactly the votes on it are gone; every other post keeps its vote count; nothing else changes |
| `Models.DeletePostOnlyWhatItMust` | app/models.py:43 | any consistent remainder of the tables without the post is contained in the cascade's result, so the cascade removes no more than the foreign keys force |
| `Models.DeleteUserKeepsSchema` | app/models.py:35-43 | deleting a user keeps the tables consistent; it removes exactly that user, the posts they own, and the votes cast by them or on those posts |
| `Models.DeleteUserOnlyWhatItMust` | app/models.py:35-43 | any consistent remainder of the tables without the user is contained in the cascade's result |
| `Models.Store.constructor` | app/models.py:47-48 | the freshly created tables are empty and consistent, and both sequences start at 1 |
| `Models.Store.InsertUser` | app/models.py:20-23 | a new email gets a row with a fresh id, the given password and `now`, and nothing else changes; a taken email fails with a unique violation and changes no table; the sequence advances either way |
| `Models.Store.InsertPost` | app/models.py:30-35 | a new row with a fresh id, the server default for an omitted `published`, and `now`; an owner that does not exist fails with a foreign-key violation and changes no table |
| `Models.Store.UpdatePostColumns` | app/routers/post.py:82-87 | only title, content and published of that one post change; id, owner and creation time stay, as do all other rows |
| `Models.Store.InsertVote` | app/models.py:39-43 | a repeated (user, post) pair fails with a unique violation and a missing user or post fails with a foreign-key violation, with tables unchanged; otherwise exactly that vote is added |
| `Models.Store.DeletePost` | app/routers/post.py:106-107 | the new tables are the post cascade applied to the old ones, and consistency is kept |
| `Models.Store.DeleteUser` | app/models.py:35-43 | the new tables are the user cascade applied to the old ones, and consistency is kept |
| `Schemas.ParsePostCreate` | app/schemas.py:17-23 | title and content are taken as given; the post is published unless the body explicitly says false |
| `Schemas.ParseVote` | app/schemas.py:50-52 | a vote body is accepted exactly when `dir` is 0 or 1, and then keeps its post id and direction |
| `Schemas.PublishedDefaultsToTrue` | app/schemas.py:20 | a post body without `published` is published |
| `Schemas.TokenIdDefaultsToNone` | app/schemas.py:46-47 | token claims built without an id have none |
| `Schemas.UserViewHidesPassword` | app/schemas.py:10-13 | two users have the same `UserOut` exactly when their id, email and creation time agree, whatever their passwords |
| `Schemas.PostViewHidesOwnerPassword` | app/schemas.py:25-29 | a post response does not change when the owner's password does |
| `PostRouter.AscendingIds` | app/routers/post.py:25 | ORDER BY posts.id: each id of the set appears exactly once, and the ids are strictly ascending |
| `PostRouter.GroupOut` | app/routers/post.py:22-24 | the group of one post carries that post and its owner, and its count is the number of vote rows for it, 0 when there are none |
| `PostRouter.GetPosts` | app/routers/post.py:14-29 | a negative limit fails and any other limit succeeds; the result has min(limit, number of posts) rows, so at most `limit`, and `limit` defaults to 10; every row is the group of an existing post; post ids strictly ascend, so a post appears at most once |
| `PostRouter.ListingFollowsIds` | app/routers/post.py:25-26 | the listing is the first `limit` entries of the ascending id order |
| `PostRouter.GetPostsSkipsNothing` | app/routers/post.py:25-26 | any post whose id is below a listed one is listed before it |
| `PostRouter.GetPostsListsAll` | app/routers/post.py:26 | a limit at least the number of posts lists every post |
| `PostRouter.GetPost` | app/routers/post.py:53-63 | as written: NotFound exactly when the posts table is empty; otherwise the group of some existing post, whatever `id` was requested |
| `PostRouter.GetPostIgnoresId` | app/routers/post.py:53-57 | get_post as written answers every id with the same result |
| `PostRouter.GetPostAnswersWrongPost` | app/routers/post.py:53-57 | with two distinct posts in the table, at least one of the two requests is answered with the other post |
| `PostRouter.GetPostIsListed` | app/routers/post.py:53-57 | what get_post as written returns is a row that get_posts lists when its limit covers the table |
| `PostRouter.GetPostById` | app/routers/post.py:46-63 | corrected get_post: NotFound exactly when post `id` does not exist; otherwise the group of that post |
| `PostRouter.GetPostByIdAgreesWithList` | app/routers/post.py:21-27 | every row get_posts lists is what the corrected get_post returns for that row's id |
| `PostRouter.DeletedUsersPostsAreGone` | app/models.py:35 | after a user is deleted, the tables are consistent and none of their posts can be found |
| `PostRouter.CreatePost` | app/routers/post.py:31-43 | succeeds exactly when the caller exists; the post id sequence advances either way; adds one post with a fresh id, the caller as owner, and the request's title, content and published; changes no other row; the new post is then found with 0 votes |
| `PostRouter.UpdatePost` | app/routers/post.py:65-89 | missing post: NotFound, checked before ownership; another user's post: Forbidden; both leave the tables unchanged; it succeeds exactly when the post exists and the caller owns it, and then only title, content and published of that post change |
| `PostRouter.DeletePost` | app/routers/post.py:91-109 | same two checks in the same order, and the tables are unchanged on either error; it succeeds exactly when the post exists and the caller owns it, and then the post cascade is applied and the post is no longer found |
| `UserRouter.GetUser` | app/routers/user.py:23-30 | NotFound exactly when no user has that id; otherwise that user's id, email and creation time, read without changing anything |
| `UserRouter.GetUserDistinguishesEmails` | app/models.py:21 | two different users never show the same email |
| `UserRouter.CreateUser` | app/routers/user.py:10-21 | fails exactly when the email is taken, with a unique violation and no change to the tables; the user id sequence advances either way; otherwise adds one user with a fresh id, the email, `hash(password)` and `now`; the answer is then what get_user returns for the new id, with no password |

## Left out

- Bearer-token authentication: `oauth2.get_current_user` is not part of this model. The authenticated caller is passed to the handlers as a user id. The listing and `get_post` do not use the caller, so they do not take one.
- Password hashing: the `pwdlib` hasher is a foreign call. `create_user` takes it as a parameter `hash`, so any function, salted or not, can stand in for it. `verify` (app/models.py:57-58) is used only by the login router, which is not part of this model.
- UserRouter.CreateUser: states that the stored password is `hash(password)`. That this differs from the plaintext is a property of the hasher, which the model does not assume.
- Database plumbing: the engine and connection URL, `get_session`, and the commented-out psycopg retry loop are I/O. `create_table` is modelled only as the `Store` constructor, which gives empty tables.
- FastAPI machinery: routing, dependency injection, `HTTPException` and `Response` are represented by the `Result` datatype. The 204 answer of `delete_post` is `Ok(())`.
- Request validation by pydantic: a missing field or a malformed email (`EmailStr`) is not modelled. Emails are opaque strings. The vote direction and the `published` default are modelled.
- `created_at`: the server clock is a parameter `now` of an opaque type.
- Concurrency and transaction isolation: each handler runs alone and atomically.
- Integer widths: `users.id` and `posts.id` are 32-bit `SERIAL` columns, and PostgreSQL's `LIMIT` takes a 64-bit `bigint`. The model's ids, sequences and `limit` are unbounded. So it does not capture the database error once a sequence passes 2147483647: `InsertUser` and `InsertPost`, and with them `CreateUser` and `CreatePost`, keep succeeding. Nor does it capture the error for a `limit` above 2^63-1: `GetPosts` answers `Ok`.
- Models.Store.DeleteUser: models the database-level `ON DELETE CASCADE` of a plain `DELETE FROM users`. No handler in the modelled routers deletes a user. An ORM `session.delete(user)` would not behave this way: `User.posts` declares no delete cascade, so it would first try to set `posts.owner_id` to NULL and fail on the NOT NULL constraint. That path is not modelled.
- Login and vote routers: not part of this model. `Models.Store.InsertVote` models only the constraints of the `votes` table.
- ORM objects: rows are values. An update builds the changed row and writes it back into the table, so the identity map and the aliasing of loaded objects are not captured. The `User.posts` / `Post.owner` relationship is modelled by looking up `owner_id`.
- PostRouter.GetPost: a ghost function. The database's choice of which group comes first is modelled as an unspecified choice that depends only on the tables.

## Findings

| source | as written | input that shows it | evidently intended | confidence | as-written member | corrected member |
|---|---|---|---|---|---|---|
| app/routers/post.py:53-57 | the grouped join has no `WHERE posts.id = id` and no ORDER BY, and `.first()` takes whichever group comes first | posts 1 and 2 exist: `GET /posts/1` and `GET /posts/2` get the same answer, so one of them gets the wrong post | answer with the group of post `id`, and NotFound when that post does not exist (the 404 message names the id) | high; not executed | `PostRouter.GetPost` (shown by `PostRouter.GetPostAnswersWrongPost`) | `PostRouter.GetPostById` (used by `CreatePost`, `DeletePost` and `DeletedUsersPostsAreGone`) |
