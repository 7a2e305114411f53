/**
 * The explore page's client logic: the optimistic like toggle, which keeps a
 * local set of liked post ids and adjusts the shown count only after the
 * request succeeds, and the owner-only delete.
 */
module ExplorePage {
  import opened Base
  import opened Seqs
  import opened AuthStore

  /** A post as the explore page holds it (straight from the feed answer). */
  datatype ExplorePost = ExplorePost(
    id: int,
    userId: int,
    username: string,
    userAvatar: Option<string>,
    imageUrl: string,
    mediaType: Option<string>,
    caption: string,
    likes: int,
    comments: int,
    createdAt: string)

  datatype ExploreState = ExploreState(posts: seq<ExplorePost>, likedPosts: set<int>)

  /** The request a like press sends. */
  datatype LikeRequest = NoRequest | SendLike(postId: int) | SendUnlike(postId: int)

  /** Every post with id `id` has its count moved by `delta`; the others are kept. */
  function AdjustLikes(posts: seq<ExplorePost>, id: int, delta: int): (r: seq<ExplorePost>)
    ensures |r| == |posts|
    ensures forall i :: 0 <= i < |r| && posts[i].id == id ==> r[i] == posts[i].(likes := posts[i].likes + delta)
    ensures forall i :: 0 <= i < |r| && posts[i].id != id ==> r[i] == posts[i]
    decreases |posts|
  {
    if |posts| == 0 then []
    else
      var p := posts[0];
      [if p.id == id then p.(likes := p.likes + delta) else p] + AdjustLikes(posts[1..], id, delta)
  }

  /**
   * `handleLike(id)`: with no token nothing is sent; a liked post is unliked
   * and a not-liked one liked. The set and the counts change only when the
   * request succeeds (`ok`).
   */
  function HandleLike(s: ExploreState, token: Option<string>, id: int, ok: bool): (res: (LikeRequest, ExploreState))
    ensures !Truthy(token) ==> res == (NoRequest, s)
    ensures Truthy(token) && id in s.likedPosts ==> res.0 == SendUnlike(id)
    ensures Truthy(token) && id !in s.likedPosts ==> res.0 == SendLike(id)
    ensures !ok ==> res.1 == s
    ensures Truthy(token) && ok && id in s.likedPosts ==>
      res.1.likedPosts == s.likedPosts - {id} && res.1.posts == AdjustLikes(s.posts, id, -1)
    ensures Truthy(token) && ok && id !in s.likedPosts ==>
      res.1.likedPosts == s.likedPosts + {id} && res.1.posts == AdjustLikes(s.posts, id, 1)
  {
    if !Truthy(token) then (NoRequest, s)
    else if id in s.likedPosts then
      (SendUnlike(id), if ok then ExploreState(AdjustLikes(s.posts, id, -1), s.likedPosts - {id}) else s)
    else
      (SendLike(id), if ok then ExploreState(AdjustLikes(s.posts, id, 1), s.likedPosts + {id}) else s)
  }

  /**
   * Two successful presses on a post not yet liked send a like then an
   * unlike, and put the set and every count back as they were.
   */
  lemma ToggleTwiceRestores(s: ExploreState, token: Option<string>, id: int)
    requires Truthy(token) && id !in s.likedPosts
    ensures var (req1, s1) := HandleLike(s, token, id, true);
      var (req2, s2) := HandleLike(s1, token, id, true);
      req1 == SendLike(id) && req2 == SendUnlike(id) && s2 == s
  {
    var s1 := HandleLike(s, token, id, true).1;
    var s2 := HandleLike(s1, token, id, true).1;
    assert s1.likedPosts - {id} == s.likedPosts;
    assert s2.posts == s.posts;
  }

  function NotPost(id: int): ExplorePost -> bool {
    (p: ExplorePost) => p.id != id
  }

  /** Whether the signed-in user (if any) owns a post: `user?.id === userId`. */
  predicate Owns(user: Option<User>, ownerId: int) {
    user.Some? && user.value.id == Some(ownerId)
  }

  /**
   * `handleDelete(postId, userId)`: refused locally unless the signed-in user
   * owns the post; then only if confirmed is the request sent; on success the
   * posts with that id leave the list. The result says whether a request was sent.
   */
  function HandleDelete(s: ExploreState, user: Option<User>, postId: int, ownerId: int, confirmed: bool, ok: bool)
    : (res: (bool, ExploreState))
    ensures res.0 <==> Owns(user, ownerId) && confirmed
    ensures !(res.0 && ok) ==> res.1 == s
    ensures res.0 && ok ==> res.1.likedPosts == s.likedPosts && res.1.posts == Filter(s.posts, NotPost(postId))
  {
    if !Owns(user, ownerId) then (false, s)
    else if !confirmed then (false, s)
    else (true, if ok then s.(posts := Filter(s.posts, NotPost(postId))) else s)
  }

  /**
   * A successful owner delete removes exactly the posts with that id: every
   * other post keeps its multiplicity, and the survivors keep their order.
   */
  lemma DeleteRemovesExactly(s: ExploreState, user: Option<User>, postId: int, ownerId: int, x: ExplorePost, b: seq<ExplorePost>)
    requires Owns(user, ownerId)
    ensures var r := HandleDelete(s, user, postId, ownerId, true, true).1;
      && (x.id != postId ==> multiset(r.posts)[x] == multiset(s.posts)[x])
      && (x.id == postId ==> multiset(r.posts)[x] == 0)
      && HandleDelete(s.(posts := s.posts + b), user, postId, ownerId, true, true).1.posts
         == r.posts + HandleDelete(s.(posts := b), user, postId, ownerId, true, true).1.posts
  {
    FilterMultiset(s.posts, NotPost(postId), x);
    FilterConcat(s.posts, b, NotPost(postId));
  }
}
