/**
 * The decision logic of the server's post routes (`/posts`): the public feed,
 * the caller's own posts, one post by id, creating a post, liking, unliking
 * and deleting. Each route is a function from the store (and the request) to
 * a status, the new store and the rows it answers with. The caller's id is
 * what the bearer-token gate attached (missing when the token carried none).
 * Post ids in paths are taken as already read by the database as integers.
 */
module PostsRoutes {
  import opened Base
  import opened Seqs
  import opened Db

  const FeedLimit: nat := 50

  /** A row of the feed and my-posts answers. */
  datatype FeedRow = FeedRow(
    id: nat,
    userId: nat,
    imageUrl: string,
    mediaType: string,
    caption: string,
    createdAt: int,
    username: string,
    userAvatar: Option<string>,
    likes: nat,
    comments: nat)

  /** `JOIN users u ON p.userId = u.id`: the post's author has a row. */
  function HasOwner(db: Db): PostRow -> bool {
    (p: PostRow) => FindUser(db.users, p.userId).Some?
  }

  /** The posts the joined queries can see. */
  function Joined(db: Db): seq<PostRow> {
    Filter(db.posts, HasOwner(db))
  }

  /** `post.mediaType || 'image'`, where a store without the column yields no value. */
  function FeedMediaType(db: Db, p: PostRow): (m: string)
    ensures m != ""
    ensures db.hasMediaType && Truthy(p.mediaType) ==> m == p.mediaType.value
    ensures !(db.hasMediaType && Truthy(p.mediaType)) ==> m == "image"
  {
    if db.hasMediaType then OrElse(p.mediaType, "image") else "image"
  }

  /**
   * Row `r` is post `p` as the joined query selects it: the post's own
   * columns, its media type with the default, its author's name and avatar,
   * and its like and comment counts.
   */
  predicate RowOf(db: Db, r: FeedRow, p: PostRow)
    requires FindUser(db.users, p.userId).Some?
  {
    && r.id == p.id && r.userId == p.userId && r.imageUrl == p.imageUrl
    && r.caption == p.caption && r.createdAt == p.createdAt
    && r.mediaType == FeedMediaType(db, p)
    && r.username == FindUser(db.users, p.userId).value.username
    && r.userAvatar == FindUser(db.users, p.userId).value.avatar
    && r.likes == LikeCount(db, p.id) && r.comments == CommentCount(db, p.id)
  }

  /** The projection of one joined post to a feed row. */
  function ShapeRow(db: Db, p: PostRow): (r: FeedRow)
    requires FindUser(db.users, p.userId).Some?
    ensures RowOf(db, r, p)
  {
    var u := FindUser(db.users, p.userId).value;
    FeedRow(p.id, p.userId, p.imageUrl, FeedMediaType(db, p), p.caption, p.createdAt,
            u.username, u.avatar, LikeCount(db, p.id), CommentCount(db, p.id))
  }

  predicate AllOwned(db: Db, s: seq<PostRow>) {
    forall k :: 0 <= k < |s| ==> FindUser(db.users, s[k].userId).Some?
  }

  function ShapeRows(db: Db, s: seq<PostRow>): (r: seq<FeedRow>)
    requires AllOwned(db, s)
    ensures |r| == |s|
    ensures forall i :: 0 <= i < |r| ==> r[i] == ShapeRow(db, s[i])
    decreases |s|
  {
    if |s| == 0 then [] else [ShapeRow(db, s[0])] + ShapeRows(db, s[1..])
  }

  /** Every row of a list with the same multiset as a joined list has an author. */
  lemma SameRowsOwned(db: Db, s: seq<PostRow>, t: seq<PostRow>)
    requires multiset(s) == multiset(t)
    requires forall k :: 0 <= k < |t| ==> HasOwner(db)(t[k])
    ensures AllOwned(db, s)
  {
    forall k | 0 <= k < |s|
      ensures FindUser(db.users, s[k].userId).Some?
    {
      assert s[k] in multiset(s);
      var m :| 0 <= m < |t| && t[m] == s[k];
    }
  }

  function Take(s: seq<PostRow>, n: nat): (r: seq<PostRow>)
    ensures |r| == if |s| <= n then |s| else n
    ensures r == s[..|r|]
    ensures multiset(r) <= multiset(s)
  {
    if |s| <= n then s
    else
      assert s == s[..n] + s[n..];
      s[..n]
  }

  /** The posts the feed shows: the joined posts newest first, at most fifty. */
  function FeedPosts(db: Db): (sel: seq<PostRow>)
    ensures AllOwned(db, sel)
    ensures SortedNewestFirst(sel)
    ensures multiset(sel) <= multiset(Joined(db))
    ensures |sel| == if |Joined(db)| <= FeedLimit then |Joined(db)| else FeedLimit
  {
    var sorted := SortNewestFirst(Joined(db));
    SameRowsOwned(db, sorted, Joined(db));
    Take(sorted, FeedLimit)
  }

  /** `GET /posts/feed`. */
  function Feed(db: Db): (rows: seq<FeedRow>)
    ensures |rows| == if |Joined(db)| <= FeedLimit then |Joined(db)| else FeedLimit
    ensures forall i :: 0 <= i < |rows| ==> rows[i].mediaType != ""
    ensures forall i :: 0 <= i < |rows| ==> rows[i].likes == LikeCount(db, rows[i].id)
    ensures forall i, j :: 0 <= i < j < |rows| ==> rows[i].createdAt >= rows[j].createdAt
    ensures |rows| == |FeedPosts(db)| && forall i :: 0 <= i < |rows| ==> RowOf(db, rows[i], FeedPosts(db)[i])
  {
    var sel := FeedPosts(db);
    ShapedRowsFollow(db, sel);
    ShapeRows(db, sel)
  }

  /** Shaped rows are the given posts row by row, in the same date order. */
  lemma ShapedRowsFollow(db: Db, s: seq<PostRow>)
    requires AllOwned(db, s) && SortedNewestFirst(s)
    ensures var r := ShapeRows(db, s);
      forall i :: 0 <= i < |r| ==> RowOf(db, r[i], s[i]) && r[i].id == s[i].id && r[i].createdAt == s[i].createdAt
    ensures var r := ShapeRows(db, s);
      forall i, j :: 0 <= i < j < |r| ==> r[i].createdAt >= r[j].createdAt
  {
    var r := ShapeRows(db, s);
    forall i, j | 0 <= i < j < |r|
      ensures r[i].createdAt >= r[j].createdAt
    {
      assert NoOlder(s[i], s[j]);
    }
  }

  /**
   * The feed holds the newest posts: a joined post it leaves out is no newer
   * than any post it shows, and every shown post is a joined one.
   */
  lemma FeedHoldsNewest(db: Db, p: PostRow)
    ensures forall k :: 0 <= k < |FeedPosts(db)| ==> FeedPosts(db)[k] in Joined(db)
    ensures p in Joined(db) && p !in FeedPosts(db) ==>
      forall k :: 0 <= k < |FeedPosts(db)| ==> NoOlder(FeedPosts(db)[k], p)
  {
    var sorted := SortNewestFirst(Joined(db));
    var sel := FeedPosts(db);
    assert sel == sorted[..|sel|];
    forall k | 0 <= k < |sel|
      ensures sel[k] in Joined(db)
    {
      assert sel[k] == sorted[k];
      assert sorted[k] in multiset(sorted);
    }
    if p in Joined(db) && p !in sel {
      assert p in multiset(Joined(db));
      assert p in sorted;
      PrefixIsNewest(sorted, |sel|, p);
    }
  }

  /** `p.userId = ?` for a caller id. */
  function OwnedBy(u: nat): PostRow -> bool {
    (p: PostRow) => p.userId == u
  }

  /** The caller's joined posts, newest first. */
  function MyPostRows(db: Db, u: nat): (sel: seq<PostRow>)
    ensures AllOwned(db, sel)
    ensures SortedNewestFirst(sel)
    ensures multiset(sel) == multiset(Filter(Joined(db), OwnedBy(u)))
    ensures forall k :: 0 <= k < |sel| ==> sel[k].userId == u
  {
    var mine := Filter(Joined(db), OwnedBy(u));
    var sorted := SortNewestFirst(mine);
    forall k | 0 <= k < |mine|
      ensures HasOwner(db)(mine[k])
    {
      assert mine[k] in Joined(db);
    }
    SameRowsOwned(db, sorted, mine);
    forall k | 0 <= k < |sorted|
      ensures sorted[k].userId == u
    {
      assert sorted[k] in multiset(sorted);
      assert sorted[k] in mine;
    }
    sorted
  }

  /**
   * `GET /posts/my-posts`: exactly the caller's posts, newest first, with no
   * limit. A caller with no id matches no post.
   */
  function MyPosts(db: Db, caller: Option<nat>): (rows: seq<FeedRow>)
    ensures caller.None? ==> rows == []
    ensures caller.Some? ==> |rows| == |Filter(Joined(db), OwnedBy(caller.value))|
    ensures forall i :: 0 <= i < |rows| ==> caller.Some? && rows[i].userId == caller.value && rows[i].mediaType != ""
    ensures forall i, j :: 0 <= i < j < |rows| ==> rows[i].createdAt >= rows[j].createdAt
    ensures caller.Some? ==>
      |rows| == |MyPostRows(db, caller.value)|
      && forall i :: 0 <= i < |rows| ==> RowOf(db, rows[i], MyPostRows(db, caller.value)[i])
  {
    match caller
    case None => []
    case Some(u) =>
      var sel := MyPostRows(db, u);
      assert |multiset(sel)| == |multiset(Filter(Joined(db), OwnedBy(u)))|;
      ShapeRows(db, sel)
  }

  // ---------------------------------------------------------------------
  // GET /posts/:postId

  datatype DetailRow = DetailRow(
    id: nat, userId: nat, imageUrl: string, caption: string, createdAt: int,
    username: string, likes: nat, comments: nat)

  /** `GET /posts/:postId`: 404 unless the post and its author exist. */
  function GetPost(db: Db, postId: nat): (res: (Status, Option<DetailRow>))
    ensures res.0 == NotFound404 <==> FindPost(db.posts, postId).None? || FindUser(db.users, FindPost(db.posts, postId).value.userId).None?
    ensures res.0 == NotFound404 <==> res.1.None?
    ensures res.0 == NotFound404 || res.0 == Ok200
    ensures res.1.Some? ==> res.1.value.id == postId && res.1.value.likes == LikeCount(db, postId)
    ensures res.1.Some? ==>
      var p := FindPost(db.posts, postId).value;
      && p in db.posts
      && res.1.value == DetailRow(p.id, p.userId, p.imageUrl, p.caption, p.createdAt,
                                  FindUser(db.users, p.userId).value.username,
                                  LikeCount(db, postId), CommentCount(db, postId))
  {
    match FindPost(db.posts, postId)
    case None => (NotFound404, None)
    case Some(p) =>
      match FindUser(db.users, p.userId)
      case None => (NotFound404, None)
      case Some(u) =>
        (Ok200, Some(DetailRow(p.id, p.userId, p.imageUrl, p.caption, p.createdAt, u.username,
                               LikeCount(db, p.id), CommentCount(db, p.id))))
  }

  // ---------------------------------------------------------------------
  // POST /posts

  datatype CreateBody = CreateBody(caption: Option<string>, imageUrl: Option<string>, mediaType: Option<string>)

  /** The row answered by a create (no counts, media type as stored). */
  datatype CreatedRow = CreatedRow(
    id: nat, userId: nat, imageUrl: string, mediaType: Option<string>, caption: string,
    createdAt: int, username: string, userAvatar: Option<string>)

  /** The row a create inserts: caption defaults to `""`, media type (when the column exists) to `'image'`. */
  function NewPostRow(db: Db, owner: nat, body: CreateBody, now: int): (p: PostRow)
    requires Truthy(body.imageUrl)
    ensures p.id == db.nextPostId && p.userId == owner && p.createdAt == now
    ensures p.imageUrl == body.imageUrl.value
    ensures p.caption == OrElse(body.caption, "")
    ensures db.hasMediaType ==> p.mediaType == Some(OrElse(body.mediaType, "image"))
    ensures !db.hasMediaType ==> p.mediaType.None?
  {
    PostRow(db.nextPostId, owner, OrElse(body.caption, ""), body.imageUrl.value,
            if db.hasMediaType then Some(OrElse(body.mediaType, "image")) else None, now)
  }

  /** The create answer's projection: a store without the column reports `'image'`. */
  function ShapeCreated(db: Db, p: PostRow): CreatedRow
    requires FindUser(db.users, p.userId).Some?
  {
    var u := FindUser(db.users, p.userId).value;
    CreatedRow(p.id, p.userId, p.imageUrl, if db.hasMediaType then p.mediaType else Some("image"),
               p.caption, p.createdAt, u.username, u.avatar)
  }

  /** Insert one post owned by the caller; the store is otherwise unchanged. */
  function InsertPost(db: Db, owner: nat, body: CreateBody, now: int): (db': Db)
    requires Truthy(body.imageUrl)
    ensures db'.posts == db.posts + [NewPostRow(db, owner, body, now)]
    ensures db' == db.(posts := db'.posts, nextPostId := db.nextPostId + 1)
  {
    db.(posts := db.posts + [NewPostRow(db, owner, body, now)], nextPostId := db.nextPostId + 1)
  }

  /**
   * `POST /posts` at time `now`: 400 without an image and the store is kept;
   * a caller with no id cannot be stored as owner (500); otherwise one row is
   * inserted and the answer is the caller's newest post.
   */
  function CreatePost(db: Db, caller: Option<nat>, body: CreateBody, now: int): (res: (Status, Db, Option<CreatedRow>))
    ensures !Truthy(body.imageUrl) ==> res == (BadRequest400, db, None)
    ensures Truthy(body.imageUrl) && caller.None? ==> res == (ServerError500, db, None)
    ensures Truthy(body.imageUrl) && caller.Some? ==>
      res.0 == Created201 && res.1 == InsertPost(db, caller.value, body, now)
  {
    if !Truthy(body.imageUrl) then (BadRequest400, db, None)
    else match caller
      case None => (ServerError500, db, None)
      case Some(u) =>
        var db' := InsertPost(db, u, body, now);
        var newest := MyPostRows(db', u);
        (Created201, db', if |newest| == 0 then None else Some(ShapeCreated(db', newest[0])))
  }

  /** An insert keeps the table constraints. */
  lemma InsertPostKeepsWellformed(db: Db, owner: nat, body: CreateBody, now: int)
    requires Wellformed(db) && Truthy(body.imageUrl)
    ensures Wellformed(InsertPost(db, owner, body, now))
  {
  }

  /** A row that is strictly newer than every other row of a newest-first list heads it. */
  lemma NewestHeadsList(sel: seq<PostRow>, p: PostRow)
    requires SortedNewestFirst(sel) && p in sel
    requires forall k :: 0 <= k < |sel| && sel[k] != p ==> !NoOlder(sel[k], p)
    ensures sel[0] == p
  {
    var m :| 0 <= m < |sel| && sel[m] == p;
    if m > 0 {
      assert NoOlder(sel[0], sel[m]);
    }
  }

  /**
   * In the store after an insert, every row of the caller other than the new
   * one is strictly older than it, given the clock did not run backwards.
   */
  lemma OlderThanNewPost(db: Db, u: nat, body: CreateBody, now: int, x: PostRow)
    requires Wellformed(db) && Truthy(body.imageUrl)
    requires forall i :: 0 <= i < |db.posts| && db.posts[i].userId == u ==> db.posts[i].createdAt <= now
    requires x in InsertPost(db, u, body, now).posts && x.userId == u
    requires x != NewPostRow(db, u, body, now)
    ensures !NoOlder(x, NewPostRow(db, u, body, now))
  {
    var i :| 0 <= i < |db.posts + [NewPostRow(db, u, body, now)]| && (db.posts + [NewPostRow(db, u, body, now)])[i] == x;
    assert i < |db.posts|;
    assert db.posts[i] == x;
  }

  /**
   * With a clock that does not run backwards (no earlier post of the caller
   * is newer than `now`) and an existing author, the create answer is the new
   * post itself, and it carries a media type.
   */
  lemma CreateAnswersNewPost(db: Db, u: nat, body: CreateBody, now: int)
    requires Wellformed(db) && Truthy(body.imageUrl)
    requires FindUser(db.users, u).Some?
    requires forall i :: 0 <= i < |db.posts| && db.posts[i].userId == u ==> db.posts[i].createdAt <= now
    ensures var res := CreatePost(db, Some(u), body, now);
      var p := NewPostRow(db, u, body, now);
      && res.2 == Some(ShapeCreated(res.1, p))
      && res.2.value.mediaType.Some? && res.2.value.mediaType.value != ""
      && res.2.value.caption == OrElse(body.caption, "")
  {
    var db' := InsertPost(db, u, body, now);
    var p := NewPostRow(db, u, body, now);
    FilterConcat(db.posts, [p], HasOwner(db'));
    assert p in Joined(db');
    var sel := MyPostRows(db', u);
    assert p in multiset(sel);
    forall k | 0 <= k < |sel| && sel[k] != p
      ensures !NoOlder(sel[k], p)
    {
      assert sel[k] in multiset(sel);
      assert sel[k] in Filter(Joined(db'), OwnedBy(u));
      OlderThanNewPost(db, u, body, now, sel[k]);
    }
    NewestHeadsList(sel, p);
  }

  // ---------------------------------------------------------------------
  // likes

  /** `POST /posts/:postId/like`: 409 if the pair exists, else exactly that pair is added. */
  function Like(db: Db, postId: nat, caller: Option<nat>): (res: (Status, Db))
    ensures caller.None? ==> res == (ServerError500, db)
    ensures caller.Some? && (postId, caller.value) in db.likes ==> res == (Conflict409, db)
    ensures caller.Some? && (postId, caller.value) !in db.likes ==>
      res == (Ok200, db.(likes := db.likes + {(postId, caller.value)}))
  {
    match caller
    case None => (ServerError500, db)
    case Some(u) =>
      if (postId, u) in db.likes then (Conflict409, db)
      else (Ok200, db.(likes := db.likes + {(postId, u)}))
  }

  /** `POST /posts/:postId/unlike`: the pair is removed whether or not it was there. */
  function Unlike(db: Db, postId: nat, caller: Option<nat>): (res: (Status, Db))
    ensures res.0 == Ok200
    ensures caller.Some? ==> res.1 == db.(likes := db.likes - {(postId, caller.value)})
    ensures caller.None? ==> res.1 == db
  {
    match caller
    case None => (Ok200, db)
    case Some(u) => (Ok200, db.(likes := db.likes - {(postId, u)}))
  }

  /** A successful like adds exactly one to the post's count and leaves the other posts' counts alone. */
  lemma LikeCountsOneMore(db: Db, postId: nat, u: nat, other: nat)
    requires (postId, u) !in db.likes
    ensures LikeCount(Like(db, postId, Some(u)).1, postId) == LikeCount(db, postId) + 1
    ensures other != postId ==> LikeCount(Like(db, postId, Some(u)).1, other) == LikeCount(db, other)
  {
    var db' := Like(db, postId, Some(u)).1;
    var before := set l | l in db.likes && l.0 == postId;
    var after := set l | l in db'.likes && l.0 == postId;
    assert after == before + {(postId, u)};
    if other != postId {
      assert forall l :: l in db'.likes && l.0 == other <==> l in db.likes && l.0 == other;
      assert (set l | l in db'.likes && l.0 == other) == (set l | l in db.likes && l.0 == other);
    }
  }

  /** Unliking twice is unliking once. */
  lemma UnlikeIdempotent(db: Db, postId: nat, caller: Option<nat>)
    ensures Unlike(Unlike(db, postId, caller).1, postId, caller) == Unlike(db, postId, caller)
  {
    if caller.Some? {
      var x := (postId, caller.value);
      assert db.likes - {x} - {x} == db.likes - {x};
    }
  }

  /** A like followed by an unlike of the same pair gives back the store it started from. */
  lemma LikeThenUnlikeRestores(db: Db, postId: nat, u: nat)
    requires (postId, u) !in db.likes
    ensures Unlike(Like(db, postId, Some(u)).1, postId, Some(u)).1 == db
  {
    assert db.likes + {(postId, u)} - {(postId, u)} == db.likes;
  }

  // ---------------------------------------------------------------------
  // DELETE /posts/:postId

  function NotPostId(id: nat): PostRow -> bool {
    (p: PostRow) => p.id != id
  }

  /**
   * `DELETE /posts/:postId`: 404 for an unknown post, 403 unless the caller
   * owns it, and otherwise only that post's row leaves the table.
   */
  function DeletePost(db: Db, postId: nat, caller: Option<nat>): (res: (Status, Db))
    ensures FindPost(db.posts, postId).None? ==> res == (NotFound404, db)
    ensures FindPost(db.posts, postId).Some? && caller != Some(FindPost(db.posts, postId).value.userId) ==>
      res == (Forbidden403, db)
    ensures res.0 == Ok200 <==> FindPost(db.posts, postId).Some? && caller == Some(FindPost(db.posts, postId).value.userId)
    ensures res.0 == Ok200 ==> res.1 == db.(posts := Filter(db.posts, NotPostId(postId)))
  {
    match FindPost(db.posts, postId)
    case None => (NotFound404, db)
    case Some(p) =>
      if caller != Some(p.userId) then (Forbidden403, db)
      else (Ok200, db.(posts := Filter(db.posts, NotPostId(postId))))
  }

  /** Filtering out an id that only index `i` carries removes just that index. */
  lemma FilterUniqueId(s: seq<PostRow>, i: nat, id: nat)
    requires i < |s| && s[i].id == id
    requires forall a, b :: 0 <= a < b < |s| ==> s[a].id != s[b].id
    ensures Filter(s, NotPostId(id)) == s[..i] + s[i + 1..]
  {
    var f := NotPostId(id);
    forall k | 0 <= k < |s| && k != i
      ensures f(s[k])
    {
      if k < i { assert s[k].id != s[i].id; } else { assert s[i].id != s[k].id; }
    }
    FilterDropsIndex(s, i, f);
  }

  /** In a well-formed store a successful delete removes exactly one row and keeps every other. */
  lemma DeleteRemovesOnlyThatPost(db: Db, postId: nat, caller: Option<nat>, q: PostRow)
    requires Wellformed(db)
    requires DeletePost(db, postId, caller).0 == Ok200
    ensures var db' := DeletePost(db, postId, caller).1;
      && |db'.posts| == |db.posts| - 1
      && (q in db.posts && q.id != postId ==> q in db'.posts)
      && db'.likes == db.likes && db'.users == db.users
  {
    var p := FindPost(db.posts, postId).value;
    var i :| 0 <= i < |db.posts| && db.posts[i] == p;
    FilterUniqueId(db.posts, i, postId);
    if q in db.posts && q.id != postId {
      var k :| 0 <= k < |db.posts| && db.posts[k] == q;
      assert NotPostId(postId)(db.posts[k]);
    }
  }

  /** After a successful delete the post is gone from the feed. */
  lemma DeletedPostLeavesFeed(db: Db, postId: nat, caller: Option<nat>)
    requires DeletePost(db, postId, caller).0 == Ok200
    ensures var db' := DeletePost(db, postId, caller).1;
      forall i :: 0 <= i < |Feed(db')| ==> Feed(db')[i].id != postId
  {
    var db' := DeletePost(db, postId, caller).1;
    var sel := FeedPosts(db');
    forall k | 0 <= k < |sel|
      ensures sel[k].id != postId
    {
      FeedHoldsNewest(db', sel[k]);
      assert sel[k] in Joined(db');
      assert sel[k] in db'.posts;
    }
  }

  // ---------------------------------------------------------------------
  // the read routes after the write routes

  /** A post just created shows up among its author's own posts. */
  lemma CreatedPostInMyPosts(db: Db, u: nat, body: CreateBody, now: int)
    requires Truthy(body.imageUrl) && FindUser(db.users, u).Some?
    ensures var rows := MyPosts(CreatePost(db, Some(u), body, now).1, Some(u));
      exists i :: 0 <= i < |rows| && rows[i].id == db.nextPostId && rows[i].createdAt == now
  {
    var db' := CreatePost(db, Some(u), body, now).1;
    var p := NewPostRow(db, u, body, now);
    assert db'.posts == db.posts + [p];
    assert db'.posts[|db.posts|] == p;
    assert HasOwner(db')(p);
    assert p in Joined(db');
    var j :| 0 <= j < |Joined(db')| && Joined(db')[j] == p;
    assert OwnedBy(u)(Joined(db')[j]);
    assert p in Filter(Joined(db'), OwnedBy(u));
    var sel := MyPostRows(db', u);
    assert p in multiset(sel);
    var i :| 0 <= i < |sel| && sel[i] == p;
    assert RowOf(db', MyPosts(db', Some(u))[i], sel[i]);
  }

  /** After a successful delete, the post is not found. */
  lemma DeletedPostNotFound(db: Db, postId: nat, caller: Option<nat>)
    requires DeletePost(db, postId, caller).0 == Ok200
    ensures GetPost(DeletePost(db, postId, caller).1, postId) == (NotFound404, None)
  {
    var posts' := DeletePost(db, postId, caller).1.posts;
    forall i | 0 <= i < |posts'|
      ensures posts'[i].id != postId
    {
      assert NotPostId(postId)(posts'[i]);
    }
  }

  /**
   * In a well-formed store, the post a create inserts is found under the id
   * it was given, with the caller as author and the like count stored for
   * that id.
   */
  lemma CreatedPostFound(db: Db, u: nat, body: CreateBody, now: int)
    requires Wellformed(db) && Truthy(body.imageUrl) && FindUser(db.users, u).Some?
    ensures var g := GetPost(CreatePost(db, Some(u), body, now).1, db.nextPostId);
      && g.0 == Ok200
      && g.1.Some? && g.1.value.userId == u && g.1.value.createdAt == now
      && g.1.value.imageUrl == body.imageUrl.value && g.1.value.caption == OrElse(body.caption, "")
      && g.1.value.likes == LikeCount(db, db.nextPostId)
  {
    var db' := CreatePost(db, Some(u), body, now).1;
    var p := NewPostRow(db, u, body, now);
    assert db'.posts == db.posts + [p];
    assert db'.posts[|db.posts|] == p;
    forall k | 0 <= k < |db.posts|
      ensures db'.posts[k].id != db.nextPostId
    {
      assert db'.posts[k] == db.posts[k];
    }
    var f := FindPost(db'.posts, db.nextPostId);
    var k :| 0 <= k < |db'.posts| && db'.posts[k] == f.value;
    assert k == |db.posts|;
  }
}
