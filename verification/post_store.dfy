/**
 * The client's post list store (`usePostStore`): a list of `Post` records and
 * five actions that replace it, prepend to it, bump or drop one post's like
 * count, and remove a post. Each action is a pure function from the old list
 * to the new one.
 */
module PostStore {
  import opened Base
  import opened Seqs

  /** One post as the client holds it. */
  datatype Post = Post(
    id: int,
    userId: int,
    username: string,
    userAvatar: string,
    imageUrl: string,
    mediaType: Option<string>,
    caption: string,
    likes: int,
    comments: int,
    createdAt: string,
    liked: bool)

  /** The store starts with no posts. */
  const Initial: seq<Post> := []

  /** `setPosts(posts)`: the new list is the given one, whatever was there before. */
  function SetPosts(posts: seq<Post>): (r: seq<Post>)
    ensures r == posts
  {
    posts
  }

  /** `addPost(post)`: the new post goes in front of the existing ones. */
  function AddPost(posts: seq<Post>, post: Post): (r: seq<Post>)
    ensures |r| == |posts| + 1
    ensures r[0] == post && r[1..] == posts
  {
    [post] + posts
  }

  /** The record `p` with one more like, marked liked. */
  function Liked(p: Post): Post {
    p.(likes := p.likes + 1, liked := true)
  }

  /** The record `p` with one like fewer (no floor at zero), marked not liked. */
  function Unliked(p: Post): Post {
    p.(likes := p.likes - 1, liked := false)
  }

  /** `likePost(id)`: every post with that id gains a like; every other post is untouched. */
  function LikePost(posts: seq<Post>, id: int): (r: seq<Post>)
    ensures |r| == |posts|
    ensures forall i :: 0 <= i < |r| && posts[i].id == id ==>
      r[i].likes == posts[i].likes + 1 && r[i].liked && r[i].(likes := posts[i].likes, liked := posts[i].liked) == posts[i]
    ensures forall i :: 0 <= i < |r| && posts[i].id != id ==> r[i] == posts[i]
    decreases |posts|
  {
    if |posts| == 0 then []
    else [if posts[0].id == id then Liked(posts[0]) else posts[0]] + LikePost(posts[1..], id)
  }

  /** `unlikePost(id)`: every post with that id loses a like; every other post is untouched. */
  function UnlikePost(posts: seq<Post>, id: int): (r: seq<Post>)
    ensures |r| == |posts|
    ensures forall i :: 0 <= i < |r| && posts[i].id == id ==>
      r[i].likes == posts[i].likes - 1 && !r[i].liked && r[i].(likes := posts[i].likes, liked := posts[i].liked) == posts[i]
    ensures forall i :: 0 <= i < |r| && posts[i].id != id ==> r[i] == posts[i]
    decreases |posts|
  {
    if |posts| == 0 then []
    else [if posts[0].id == id then Unliked(posts[0]) else posts[0]] + UnlikePost(posts[1..], id)
  }

  /** The filter test of `deletePost`: keep a post unless it carries `id`. */
  function NotId(id: int): Post -> bool {
    (p: Post) => p.id != id
  }

  /** `deletePost(id)`: the posts whose id differs, in their original order. */
  function DeletePost(posts: seq<Post>, id: int): (r: seq<Post>)
    ensures |r| <= |posts|
    ensures forall i :: 0 <= i < |r| ==> r[i].id != id && r[i] in posts
    ensures forall i :: 0 <= i < |posts| && posts[i].id != id ==> posts[i] in r
  {
    Filter(posts, NotId(id))
  }

  predicate HasId(posts: seq<Post>, id: int) {
    exists i :: 0 <= i < |posts| && posts[i].id == id
  }

  /** Liking then unliking the same id gives every post its old like count back. */
  lemma LikeThenUnlikeRestoresLikes(posts: seq<Post>, id: int)
    ensures var r := UnlikePost(LikePost(posts, id), id);
      && |r| == |posts|
      && (forall i :: 0 <= i < |r| ==> r[i].likes == posts[i].likes)
      && (forall i :: 0 <= i < |r| && posts[i].id == id ==> r[i] == posts[i].(liked := false))
      && (forall i :: 0 <= i < |r| && posts[i].id != id ==> r[i] == posts[i])
  {
  }

  /** Like, unlike and delete of an id that no post carries leave the list as it was. */
  lemma AbsentIdChangesNothing(posts: seq<Post>, id: int)
    requires !HasId(posts, id)
    ensures LikePost(posts, id) == posts
    ensures UnlikePost(posts, id) == posts
    ensures DeletePost(posts, id) == posts
  {
    FilterKeepsAll(posts, NotId(id));
  }

  /** Deleting is idempotent. */
  lemma DeleteIdempotent(posts: seq<Post>, id: int)
    ensures DeletePost(DeletePost(posts, id), id) == DeletePost(posts, id)
  {
    FilterIdempotent(posts, NotId(id));
  }

  /** Deleting keeps the survivors' relative order: it commutes with concatenation. */
  lemma DeleteKeepsOrder(a: seq<Post>, b: seq<Post>, id: int)
    ensures DeletePost(a + b, id) == DeletePost(a, id) + DeletePost(b, id)
  {
    FilterConcat(a, b, NotId(id));
  }

  /** Adding a post and then deleting its id is deleting the id from the old list. */
  lemma DeleteUndoesAdd(posts: seq<Post>, post: Post)
    ensures DeletePost(AddPost(posts, post), post.id) == DeletePost(posts, post.id)
  {
    FilterConcat([post], posts, NotId(post.id));
    assert Filter([post], NotId(post.id)) == [];
  }

  /** There is no floor: unliking a post with zero likes leaves it at -1. */
  lemma UnlikeCanGoNegative(p: Post)
    requires p.likes == 0
    ensures UnlikePost([p], p.id)[0].likes == -1
  {
  }
}
