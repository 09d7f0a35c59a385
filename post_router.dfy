/** The `/posts` handlers: the listing and the single-post query, which read
    the tables, and creation, update and deletion, which change them after
    checking that the post exists and that the caller owns it.

    The authenticated caller is given as a user id; the token check that
    produces it is not part of this model. */
module PostRouter {
  import opened Base
  import Models
  import Schemas

  /** The page size of the listing when the request gives no `limit`. */
  const DefaultLimit: int := 10

  // ORDER BY posts.id

  predicate IsLeast(m: int, s: set<int>)
  {
    m in s && forall x | x in s :: m <= x
  }

  lemma EmptyIfNoMember(s: set<int>)
    requires forall y :: y !in s
    ensures s == {}
  {
    assert forall y :: y in s <==> y in {};
  }

  lemma HasMember(s: set<int>)
    ensures s == {} || exists y :: y in s
  {
    if forall y :: y !in s {
      EmptyIfNoMember(s);
    }
  }

  /** Every non-empty finite set of ids has a least one. */
  lemma {:induction false} LeastExists(s: set<int>)
    requires s != {}
    ensures exists m :: IsLeast(m, s)
  {
    HasMember(s);
    var y :| y in s;
    var rest := s - {y};
    if z :| z in rest && z < y {
      LeastExists(rest);
      var m :| IsLeast(m, rest);
      forall x | x in s ensures m <= x {
        if x != y { assert x in rest; }
      }
      assert IsLeast(m, s);
    } else {
      forall x | x in s ensures y <= x {
        if x != y { assert x in rest; }
      }
      assert IsLeast(y, s);
    }
  }

  predicate StrictlyAscending(ids: seq<int>)
  {
    forall i, j | 0 <= i < j < |ids| :: ids[i] < ids[j]
  }

  /** In an ascending sequence, a smaller id sits at a smaller index. */
  lemma AscendingIndexOrder(ids: seq<int>, k: int, j: int)
    requires StrictlyAscending(ids) && 0 <= k < |ids| && 0 <= j < |ids| && ids[k] < ids[j]
    ensures k < j
  {
  }

  /** The ids of `s` in ascending order, each once. */
  function AscendingIds(s: set<int>): (r: seq<int>)
    ensures |r| == |s|
    ensures forall x :: x in r <==> x in s
    ensures StrictlyAscending(r)
    decreases s
  {
    if s == {} then []
    else
      LeastExists(s);
      var m :| IsLeast(m, s);
      var rest := AscendingIds(s - {m});
      assert forall i | 0 <= i < |rest| :: m < rest[i];
      [m] + rest
  }

  /** One group of `posts LEFT OUTER JOIN votes ON posts.id = votes.post_id
      GROUP BY posts.id`, with `count(votes.post_id)` as its vote count,
      serialised as `PostOut`. */
  function GroupOut(t: Models.Tables, id: int): (g: Schemas.PostOut)
    requires t.Consistent() && id in t.posts
    ensures g.post.id == id && g.post.ownerId == t.posts[id].ownerId
    ensures g.post.owner.id == g.post.ownerId
    ensures g.votes == Models.VoteCount(t.votes, id)
    ensures (forall v | v in t.votes :: v.postId != id) ==> g.votes == 0
  {
    Models.NoVotesCountZero(t.votes, id);
    var p := t.posts[id];
    Schemas.PostOut(Schemas.PostView(p, t.users[p.ownerId]), Models.VoteCount(t.votes, id))
  }

  /** The groups of the posts `ids`, in that order. */
  function Groups(t: Models.Tables, ids: seq<int>): (rows: seq<Schemas.PostOut>)
    requires t.Consistent() && forall i | 0 <= i < |ids| :: ids[i] in t.posts
    ensures |rows| == |ids|
    ensures forall i | 0 <= i < |ids| :: rows[i].post.id == ids[i] && rows[i] == GroupOut(t, rows[i].post.id)
    ensures StrictlyAscending(ids) ==> forall i, j | 0 <= i < j < |rows| :: rows[i].post.id < rows[j].post.id
  {
    seq(|ids|, i requires 0 <= i < |ids| => GroupOut(t, ids[i]))
  }

  /** get_posts: the groups of the join in ascending post id, at most `limit`
      of them. PostgreSQL refuses a negative LIMIT. */
  function GetPosts(t: Models.Tables, limit: int := DefaultLimit): (r: Result<seq<Schemas.PostOut>>)
    requires t.Consistent()
    ensures r.Err? <==> limit < 0
    ensures r.Err? ==> r.error == StorageFailure(NegativeLimit)
    ensures r.Ok? ==> |r.value| <= limit && |r.value| == Min(limit, |t.posts|)
    ensures r.Ok? ==> forall i | 0 <= i < |r.value| ::
              r.value[i].post.id in t.posts && r.value[i] == GroupOut(t, r.value[i].post.id)
    ensures r.Ok? ==> forall i, j | 0 <= i < j < |r.value| ::
              r.value[i].post.id < r.value[j].post.id
  {
    if limit < 0 then Err(StorageFailure(NegativeLimit))
    else
      var ids := AscendingIds(t.posts.Keys);
      assert |ids| == |t.posts.Keys| == |t.posts|;
      var listed := ids[..Min(limit, |ids|)];
      assert forall i | 0 <= i < |listed| :: listed[i] == ids[i] && listed[i] in t.posts;
      assert StrictlyAscending(listed);
      Ok(Groups(t, listed))
  }

  /** The listing is the first `limit` of the ascending ids. */
  lemma ListingFollowsIds(t: Models.Tables, limit: int)
    requires t.Consistent() && 0 <= limit
    ensures |GetPosts(t, limit).value| == Min(limit, |AscendingIds(t.posts.Keys)|)
    ensures forall i | 0 <= i < |GetPosts(t, limit).value| ::
              GetPosts(t, limit).value[i].post.id == AscendingIds(t.posts.Keys)[i]
  {
  }

  /** The listing skips no post: a post whose id is below a listed one is
      listed before it. */
  lemma GetPostsSkipsNothing(t: Models.Tables, limit: int)
    requires t.Consistent() && 0 <= limit
    ensures forall id, j | id in t.posts && 0 <= j < |GetPosts(t, limit).value| &&
                           id < GetPosts(t, limit).value[j].post.id ::
              exists i | 0 <= i < j :: GetPosts(t, limit).value[i].post.id == id
  {
    var rows := GetPosts(t, limit).value;
    var ids := AscendingIds(t.posts.Keys);
    ListingFollowsIds(t, limit);
    forall id, j | id in t.posts && 0 <= j < |rows| && id < rows[j].post.id
      ensures exists i | 0 <= i < j :: rows[i].post.id == id
    {
      assert id in ids;
      var k :| 0 <= k < |ids| && ids[k] == id;
      AscendingIndexOrder(ids, k, j);
      assert rows[k].post.id == id;
    }
  }

  /** A limit that covers the table lists every post. */
  lemma GetPostsListsAll(t: Models.Tables, limit: int)
    requires t.Consistent() && |t.posts| <= limit
    ensures forall id | id in t.posts ::
              exists i | 0 <= i < |GetPosts(t, limit).value| :: GetPosts(t, limit).value[i].post.id == id
  {
    var rows := GetPosts(t, limit).value;
    var ids := AscendingIds(t.posts.Keys);
    ListingFollowsIds(t, limit);
    assert |ids| == |t.posts.Keys| == |t.posts|;
    forall id | id in t.posts
      ensures exists i | 0 <= i < |rows| :: rows[i].post.id == id
    {
      assert id in ids;
      var k :| 0 <= k < |ids| && ids[k] == id;
      assert rows[k].post.id == id;
    }
  }

  /** get_post as written: the same grouped join without a WHERE clause on
      `id` and without an ORDER BY, of which the first row is taken. Which
      group the database returns first is unspecified, so the model picks an
      arbitrary post; `id` plays no part. */
  ghost function GetPost(t: Models.Tables, id: int): (r: Result<Schemas.PostOut>)
    requires t.Consistent()
    ensures r.Err? <==> t.posts == map[]
    ensures r.Err? ==> r.error == NotFound
    ensures r.Ok? ==> r.value.post.id in t.posts && r.value == GroupOut(t, r.value.post.id)
  {
    if t.posts == map[] then Err(NotFound)
    else
      HasMember(t.posts.Keys);
      var pid :| pid in t.posts;
      Ok(GroupOut(t, pid))
  }

  /** get_post as written answers every id alike. */
  lemma GetPostIgnoresId(t: Models.Tables, a: int, b: int)
    requires t.Consistent()
    ensures GetPost(t, a) == GetPost(t, b)
  {
  }

  /** Hence, with two posts in the table, one of the two ids is answered
      with the other post. */
  lemma GetPostAnswersWrongPost(t: Models.Tables, a: int, b: int)
    requires t.Consistent() && a in t.posts && b in t.posts && a != b
    ensures GetPost(t, a).Ok? && GetPost(t, b).Ok?
    ensures GetPost(t, a).value.post.id != a || GetPost(t, b).value.post.id != b
  {
  }

  /** get_post as the route and its error message intend it: the group of
      post `id`, or NotFound. */
  function GetPostById(t: Models.Tables, id: int): (r: Result<Schemas.PostOut>)
    requires t.Consistent()
    ensures r.Err? <==> id !in t.posts
    ensures r.Err? ==> r.error == NotFound
    ensures r.Ok? ==> r.value.post.id == id && r.value == GroupOut(t, id)
  {
    if id in t.posts then Ok(GroupOut(t, id)) else Err(NotFound)
  }

  /** What the listing shows for a post is what the corrected lookup returns
      for it. */
  lemma GetPostByIdAgreesWithList(t: Models.Tables, limit: int)
    requires t.Consistent() && 0 <= limit
    ensures forall i | 0 <= i < |GetPosts(t, limit).value| ::
              GetPostById(t, GetPosts(t, limit).value[i].post.id) == Ok(GetPosts(t, limit).value[i])
  {
  }

  /** The post returned by get_post as written is one that the listing shows
      when its limit covers the whole table. */
  lemma GetPostIsListed(t: Models.Tables, id: int)
    requires t.Consistent() && t.posts != map[]
    ensures GetPost(t, id).value in GetPosts(t, |t.posts|).value
  {
    var g := GetPost(t, id).value;
    var rows := GetPosts(t, |t.posts|).value;
    GetPostsListsAll(t, |t.posts|);
    var i :| 0 <= i < |rows| && rows[i].post.id == g.post.id;
    assert rows[i] == g;
  }

  /** After a user is deleted, none of their posts can be looked up. */
  lemma DeletedUsersPostsAreGone(t: Models.Tables, userId: int, id: int)
    requires t.Consistent() && id in t.posts && t.posts[id].ownerId == userId
    ensures t.DeleteUser(userId).Consistent()
    ensures GetPostById(t.DeleteUser(userId), id) == Err(NotFound)
  {
  }

  /** create_post: stores a new post owned by the caller, with the title,
      content and published flag of the request. */
  method CreatePost(s: Models.Store, callerId: int, post: Schemas.PostCreate, now: Timestamp)
    returns (r: Result<Schemas.Post>)
    requires s.Valid()
    modifies s
    ensures s.Valid()
    ensures s.nextPostId == old(s.nextPostId) + 1 && s.nextUserId == old(s.nextUserId)
    ensures r.Ok? <==> callerId in old(s.users)
    ensures r.Err? ==> r.error == StorageFailure(ForeignKeyViolation) && s.Contents() == old(s.Contents())
    ensures r.Ok? ==>
              && r.value.id !in old(s.posts)
              && s.Contents() == old(s.Contents()).(posts := old(s.posts)[r.value.id :=
                   Models.Post(r.value.id, post.title, post.content, post.published, now, callerId)])
              && r.value.owner == Schemas.UserView(s.users[callerId])
              && GetPostById(s.Contents(), r.value.id) == Ok(Schemas.PostOut(r.value, 0))
  {
    var inserted := s.InsertPost(post.title, post.content, Some(post.published), callerId, now);
    match inserted
    case Err(e) =>
      r := Err(e);
    case Ok(p) =>
      Models.NoVotesCountZero(s.votes, p.id);
      r := Ok(Schemas.PostView(p, s.users[callerId]));
  }

  /** update_post: NotFound for a missing post, then Forbidden for a post of
      another user; otherwise overwrites title, content and published. */
  method UpdatePost(s: Models.Store, id: int, post: Schemas.PostCreate, callerId: int)
    returns (r: Result<Schemas.Post>)
    requires s.Valid()
    modifies s
    ensures s.Valid()
    ensures s.nextUserId == old(s.nextUserId) && s.nextPostId == old(s.nextPostId)
    ensures id !in old(s.posts) ==> r == Err(NotFound)
    ensures id in old(s.posts) && old(s.posts[id].ownerId) != callerId ==> r == Err(Forbidden)
    ensures r.Ok? <==> id in old(s.posts) && old(s.posts[id].ownerId) == callerId
    ensures r.Err? ==> s.Contents() == old(s.Contents())
    ensures r.Ok? ==>
              && s.Contents() == old(s.Contents()).(posts := old(s.posts)[id :=
                   old(s.posts[id]).(title := post.title, content := post.content,
                                     published := post.published)])
              && r.value == Schemas.PostView(s.posts[id], s.users[callerId])
  {
    if id !in s.posts {
      return Err(NotFound);
    }
    var row := s.posts[id];
    if row.ownerId != callerId {
      return Err(Forbidden);
    }
    row := row.(title := post.title);
    row := row.(content := post.content);
    row := row.(published := post.published);
    s.UpdatePostColumns(id, row.title, row.content, row.published);
    r := Ok(Schemas.PostView(s.posts[id], s.users[callerId]));
  }

  /** delete_post: the same two checks in the same order; otherwise deletes
      the post, and the cascade deletes its votes. */
  method DeletePost(s: Models.Store, id: int, callerId: int) returns (r: Result<()>)
    requires s.Valid()
    modifies s
    ensures s.Valid()
    ensures s.nextUserId == old(s.nextUserId) && s.nextPostId == old(s.nextPostId)
    ensures id !in old(s.posts) ==> r == Err(NotFound)
    ensures id in old(s.posts) && old(s.posts[id].ownerId) != callerId ==> r == Err(Forbidden)
    ensures r.Ok? <==> id in old(s.posts) && old(s.posts[id].ownerId) == callerId
    ensures r.Err? ==> s.Contents() == old(s.Contents())
    ensures r.Ok? ==>
              && s.Contents() == old(s.Contents()).DeletePost(id)
              && GetPostById(s.Contents(), id) == Err(NotFound)
  {
    if id !in s.posts {
      return Err(NotFound);
    }
    var row := s.posts[id];
    if row.ownerId != callerId {
      return Err(Forbidden);
    }
    s.DeletePost(id);
    r := Ok(());
  }
}
