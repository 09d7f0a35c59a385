/** The request and response records the handlers exchange with clients, with
    the defaults and literal constraints they declare, and the views that turn
    table rows into responses. */
module Schemas {
  import opened Base
  import Models

  /** Body of a registration request. */
  datatype UserCreate = UserCreate(email: string, password: string)

  /** A user as a response shows it: there is no password field. */
  datatype UserOut = UserOut(id: int, email: string, createdAt: Timestamp)

  /** Body of a post creation or update request; `published` defaults to true. */
  datatype PostBase = PostBase(title: string, content: string, published: bool := true)

  type PostCreate = PostBase

  /** A post as a response shows it, with its owner embedded as a `UserOut`. */
  datatype Post = Post(id: int, title: string, content: string, published: bool,
                       createdAt: Timestamp, ownerId: int, owner: UserOut)

  /** One post paired with its vote count. */
  datatype PostOut = PostOut(post: Post, votes: int)

  datatype UserLogin = UserLogin(email: string, password: string)

  datatype Token = Token(accessToken: string, tokenType: string)

  /** The claims read back from a token; `id` defaults to absent. */
  datatype TokenData = TokenData(id: Option<int> := None)

  /** The only directions a vote request may carry. */
  type Direction = d: int | d == 0 || d == 1

  /** Body of a vote request. */
  datatype Vote = Vote(postId: int, dir: Direction)

  /** Reads a post body whose `published` field may be missing. */
  function ParsePostCreate(title: string, content: string, published: Option<bool>): (p: PostCreate)
    ensures p.title == title && p.content == content
    ensures p.published <==> published != Some(false)
  {
    match published
    case None => PostBase(title, content)
    case Some(b) => PostBase(title, content, b)
  }

  /** Reads a vote body: `dir` must be 0 or 1. */
  function ParseVote(postId: int, dir: int): (r: Option<Vote>)
    ensures r.Some? <==> dir == 0 || dir == 1
    ensures r.Some? ==> r.value.postId == postId && r.value.dir == dir
  {
    if dir == 0 || dir == 1 then Some(Vote(postId, dir)) else None
  }

  /** A `users` row serialised as `UserOut`. */
  function UserView(u: Models.User): UserOut
  {
    UserOut(u.id, u.email, u.createdAt)
  }

  /** A `posts` row serialised as `Post`, its owner loaded through the
      relationship and serialised as `UserOut`. */
  function PostView(p: Models.Post, owner: Models.User): Post
    requires owner.id == p.ownerId
  {
    Post(p.id, p.title, p.content, p.published, p.createdAt, p.ownerId, UserView(owner))
  }

  /** A post body that leaves out `published` asks for a published post. */
  lemma PublishedDefaultsToTrue(title: string, content: string)
    ensures PostBase(title, content).published
    ensures ParsePostCreate(title, content, None).published
  {
  }

  /** Token claims built without an id carry none. */
  lemma TokenIdDefaultsToNone()
    ensures TokenData().id == None
  {
  }

  /** A `UserOut` determines a user's id, email and creation time and says
      nothing about the password: users differing only in password look alike. */
  lemma UserViewHidesPassword(u: Models.User, w: Models.User)
    ensures UserView(u) == UserView(w) <==>
              u.id == w.id && u.email == w.email && u.createdAt == w.createdAt
  {
  }

  /** A post response says nothing about its owner's password. */
  lemma PostViewHidesOwnerPassword(p: Models.Post, owner: Models.User, password: string)
    requires owner.id == p.ownerId
    ensures PostView(p, owner.(password := password)) == PostView(p, owner)
  {
  }
}
