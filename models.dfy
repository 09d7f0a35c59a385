/** The three tables of the blog (users, posts, votes), the constraints the
    schema declares on them, the cascades those constraints imply, and the
    database that holds them. */
module Models {
  import opened Base

  /** A row of table `users`. */
  datatype User = User(id: int, email: string, password: string, createdAt: Timestamp)

  /** A row of table `posts`. */
  datatype Post = Post(id: int, title: string, content: string, published: bool,
                       createdAt: Timestamp, ownerId: int)

  /** A row of table `votes`. The pair is the table's primary key, so a set of
      votes holds at most one row per (user, post) pair. */
  datatype Vote = Vote(userId: int, postId: int)

  /** The value an INSERT stores in `posts.published`: the supplied one, or the
      server default TRUE when the statement leaves the column out. */
  function PublishedColumn(supplied: Option<bool>): (b: bool)
    ensures supplied.None? ==> b
    ensures supplied.Some? ==> b == supplied.value
  {
    match supplied
    case None => true
    case Some(v) => v
  }

  /** The votes cast on post `postId`. */
  function VotesOn(votes: set<Vote>, postId: int): set<Vote>
  {
    set v | v in votes && v.postId == postId
  }

  /** The number of vote rows whose `post_id` is `postId`. */
  function VoteCount(votes: set<Vote>, postId: int): nat
  {
    |VotesOn(votes, postId)|
  }

  /** A post nobody voted on has a count of zero. */
  lemma NoVotesCountZero(votes: set<Vote>, postId: int)
    ensures (forall v | v in votes :: v.postId != postId) ==> VoteCount(votes, postId) == 0
  {
  }

  /** The contents of the three tables at one moment. */
  datatype Tables = Tables(users: map<int, User>, posts: map<int, Post>, votes: set<Vote>)
  {
    /** Each row is filed under its own primary key. */
    predicate KeysAreIds()
    {
      && (forall id | id in users :: users[id].id == id)
      && (forall id | id in posts :: posts[id].id == id)
    }

    /** `users.email` is UNIQUE. */
    predicate UniqueEmails()
    {
      forall a, b | a in users && b in users && users[a].email == users[b].email :: a == b
    }

    /** `posts.owner_id` is a FOREIGN KEY into `users`. */
    predicate OwnersExist()
    {
      forall id | id in posts :: posts[id].ownerId in users
    }

    /** `votes.user_id` and `votes.post_id` are FOREIGN KEYs into `users` and `posts`. */
    predicate VotesReferenceRows()
    {
      forall v | v in votes :: v.userId in users && v.postId in posts
    }

    /** Every constraint the schema declares holds. */
    predicate Consistent()
    {
      KeysAreIds() && UniqueEmails() && OwnersExist() && VotesReferenceRows()
    }

    predicate EmailTaken(email: string)
    {
      exists id | id in users :: users[id].email == email
    }

    /** DELETE of one post: ON DELETE CASCADE on `votes.post_id` takes the
        post's votes with it. */
    function DeletePost(postId: int): Tables
    {
      Tables(users, posts - {postId}, set v | v in votes && v.postId != postId)
    }

    /** DELETE of one user: ON DELETE CASCADE on `posts.owner_id` removes the
        posts whose owner is gone, and on `votes.user_id` and `votes.post_id`
        the votes whose user or post is gone. */
    function DeleteUser(userId: int): Tables
    {
      var users' := users - {userId};
      var posts' := map id | id in posts && posts[id].ownerId in users' :: posts[id];
      Tables(users', posts', set v | v in votes && v.userId in users' && v.postId in posts')
    }
  }

  /** `a` is what is left of `b` after deleting some rows: every row of `a`
      is a row of `b`, unchanged. */
  predicate SubTables(a: Tables, b: Tables)
  {
    && (forall id | id in a.users :: id in b.users && a.users[id] == b.users[id])
    && (forall id | id in a.posts :: id in b.posts && a.posts[id] == b.posts[id])
    && a.votes <= b.votes
  }

  /** Deleting a post keeps every constraint, and removes from the votes
      exactly the ones cast on it: every other post keeps its vote count. */
  lemma DeletePostKeepsSchema(t: Tables, postId: int)
    requires t.Consistent()
    ensures t.DeletePost(postId).Consistent()
    ensures SubTables(t.DeletePost(postId), t)
    ensures postId !in t.DeletePost(postId).posts
    ensures t.DeletePost(postId).votes == t.votes - VotesOn(t.votes, postId)
    ensures forall p | p != postId :: VoteCount(t.DeletePost(postId).votes, p) == VoteCount(t.votes, p)
  {
    var d := t.DeletePost(postId);
    assert forall v :: v in d.votes <==> v in t.votes - VotesOn(t.votes, postId);
    forall p | p != postId
      ensures VoteCount(d.votes, p) == VoteCount(t.votes, p)
    {
      assert forall v :: v in VotesOn(d.votes, p) <==> v in VotesOn(t.votes, p);
      assert VotesOn(d.votes, p) == VotesOn(t.votes, p);
    }
  }

  /** The post cascade deletes nothing it need not: any consistent remainder
      of `t` without the post lies inside `t.DeletePost(postId)`. */
  lemma DeletePostOnlyWhatItMust(t: Tables, postId: int, rest: Tables)
    requires rest.Consistent() && SubTables(rest, t) && postId !in rest.posts
    ensures SubTables(rest, t.DeletePost(postId))
  {
  }

  /** Deleting a user keeps every constraint and removes exactly the user,
      the posts they own, and the votes cast by them or on those posts. */
  lemma DeleteUserKeepsSchema(t: Tables, userId: int)
    requires t.Consistent()
    ensures t.DeleteUser(userId).Consistent()
    ensures SubTables(t.DeleteUser(userId), t)
    ensures t.DeleteUser(userId).users.Keys == t.users.Keys - {userId}
    ensures forall id | id in t.posts ::
              id in t.DeleteUser(userId).posts <==> t.posts[id].ownerId != userId
    ensures forall v | v in t.votes ::
              v in t.DeleteUser(userId).votes <==>
                v.userId != userId && t.posts[v.postId].ownerId != userId
  {
  }

  /** The user cascade deletes nothing it need not: any consistent remainder
      of `t` without the user lies inside `t.DeleteUser(userId)`. */
  lemma DeleteUserOnlyWhatItMust(t: Tables, userId: int, rest: Tables)
    requires rest.Consistent() && SubTables(rest, t) && userId !in rest.users
    ensures SubTables(rest, t.DeleteUser(userId))
  {
  }

  /** The database: the three tables plus the two serial sequences that hand
      out `users.id` and `posts.id`. A sequence value once drawn is never
      handed out again, even when the INSERT that drew it fails. */
  class Store {
    var users: map<int, User>
    var posts: map<int, Post>
    var votes: set<Vote>
    var nextUserId: int  // the next value of the `users.id` sequence
    var nextPostId: int  // the next value of the `posts.id` sequence

    function Contents(): Tables
      reads this
    {
      Tables(users, posts, votes)
    }

    ghost predicate Valid()
      reads this
    {
      && Contents().Consistent()
      && 1 <= nextUserId && 1 <= nextPostId
      && (forall id | id in users :: 1 <= id < nextUserId)
      && (forall id | id in posts :: 1 <= id < nextPostId)
    }

    /** An empty database, as `create_table` leaves it. */
    constructor ()
      ensures Valid()
      ensures Contents() == Tables(map[], map[], {})
      ensures nextUserId == 1 && nextPostId == 1
    {
      users, posts, votes := map[], map[], {};
      nextUserId, nextPostId := 1, 1;
    }

    /** INSERT INTO users; fails on a duplicate email. */
    method InsertUser(email: string, password: string, now: Timestamp) returns (r: Result<User>)
      requires Valid()
      modifies this
      ensures Valid()
      ensures nextUserId == old(nextUserId) + 1 && nextPostId == old(nextPostId)
      ensures old(Contents().EmailTaken(email)) ==>
                r == Err(StorageFailure(UniqueViolation)) && Contents() == old(Contents())
      ensures !old(Contents().EmailTaken(email)) ==>
                && r == Ok(User(old(nextUserId), email, password, now))
                && old(nextUserId) !in old(users)
                && Contents() == old(Contents()).(users := old(users)[old(nextUserId) := r.value])
    {
      var id := nextUserId;
      nextUserId := nextUserId + 1;
      if exists k | k in users :: users[k].email == email {
        r := Err(StorageFailure(UniqueViolation));
      } else {
        var u := User(id, email, password, now);
        users := users[id := u];
        r := Ok(u);
      }
    }

    /** INSERT INTO posts; `published` left out takes the server default.
        Fails when the owner does not exist. */
    method InsertPost(title: string, content: string, published: Option<bool>,
                      ownerId: int, now: Timestamp) returns (r: Result<Post>)
      requires Valid()
      modifies this
      ensures Valid()
      ensures nextPostId == old(nextPostId) + 1 && nextUserId == old(nextUserId)
      ensures ownerId !in old(users) ==>
                r == Err(StorageFailure(ForeignKeyViolation)) && Contents() == old(Contents())
      ensures ownerId in old(users) ==>
                && r == Ok(Post(old(nextPostId), title, content, PublishedColumn(published), now, ownerId))
                && old(nextPostId) !in old(posts)
                && Contents() == old(Contents()).(posts := old(posts)[old(nextPostId) := r.value])
    {
      var id := nextPostId;
      nextPostId := nextPostId + 1;
      if ownerId !in users {
        r := Err(StorageFailure(ForeignKeyViolation));
      } else {
        var p := Post(id, title, content, PublishedColumn(published), now, ownerId);
        posts := posts[id := p];
        r := Ok(p);
      }
    }

    /** UPDATE posts SET title, content, published WHERE id = `id`. */
    method UpdatePostColumns(id: int, title: string, content: string, published: bool)
      requires Valid() && id in posts
      modifies this
      ensures Valid()
      ensures nextUserId == old(nextUserId) && nextPostId == old(nextPostId)
      ensures Contents() == old(Contents()).(posts := old(posts)[id :=
                old(posts)[id].(title := title, content := content, published := published)])
    {
      posts := posts[id := posts[id].(title := title, content := content, published := published)];
    }

    /** INSERT INTO votes; fails on a repeated (user, post) pair or on a
        missing user or post. */
    method InsertVote(userId: int, postId: int) returns (r: Result<Vote>)
      requires Valid()
      modifies this
      ensures Valid()
      ensures nextUserId == old(nextUserId) && nextPostId == old(nextPostId)
      ensures Vote(userId, postId) in old(votes) ==> r == Err(StorageFailure(UniqueViolation))
      ensures Vote(userId, postId) !in old(votes) && (userId !in old(users) || postId !in old(posts)) ==>
                r == Err(StorageFailure(ForeignKeyViolation))
      ensures r.Err? ==> Contents() == old(Contents())
      ensures r.Ok? ==>
                && r.value == Vote(userId, postId)
                && Contents() == old(Contents()).(votes := old(votes) + {r.value})
      ensures r.Ok? <==> Vote(userId, postId) !in old(votes) && userId in old(users) && postId in old(posts)
    {
      var v := Vote(userId, postId);
      if v in votes {
        r := Err(StorageFailure(UniqueViolation));
      } else if userId !in users || postId !in posts {
        r := Err(StorageFailure(ForeignKeyViolation));
      } else {
        votes := votes + {v};
        r := Ok(v);
      }
    }

    /** DELETE FROM posts WHERE id = `id`, with its cascade. */
    method DeletePost(id: int)
      requires Valid()
      modifies this
      ensures Valid()
      ensures nextUserId == old(nextUserId) && nextPostId == old(nextPostId)
      ensures Contents() == old(Contents()).DeletePost(id)
    {
      DeletePostKeepsSchema(Contents(), id);
      posts := posts - {id};
      votes := set v | v in votes && v.postId != id;
    }

    /** DELETE FROM users WHERE id = `id`, with its cascades. */
    method DeleteUser(id: int)
      requires Valid()
      modifies this
      ensures Valid()
      ensures nextUserId == old(nextUserId) && nextPostId == old(nextPostId)
      ensures Contents() == old(Contents()).DeleteUser(id)
    {
      DeleteUserKeepsSchema(Contents(), id);
      var d := Contents().DeleteUser(id);
      users, posts, votes := d.users, d.posts, d.votes;
    }
  }
}
