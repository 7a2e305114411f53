/**
 * The home page's client logic: the sign-in pre-check before the feed is
 * fetched, the normalisation of feed rows into store posts, and how a failed
 * fetch is handled (a rejected token clears the saved sign-in).
 */
module HomePage {
  import opened Base
  import opened AuthStore
  import opened Storage
  import PostStore

  /** A feed row as the client receives it; the optional columns may be missing or empty. */
  datatype RawPost = RawPost(
    id: int,
    userId: int,
    username: string,
    userAvatar: Option<string>,
    imageUrl: string,
    mediaType: Option<string>,
    caption: string,
    likes: Option<int>,
    comments: Option<int>,
    createdAt: string)

  const DefaultAvatar: string := "👤"

  /** One row of the `fetchPosts` map: defaults for the falsy fields, never liked. */
  function Normalize(p: RawPost): (q: PostStore.Post)
    ensures q.id == p.id && q.userId == p.userId && q.username == p.username
    ensures q.imageUrl == p.imageUrl && q.caption == p.caption && q.createdAt == p.createdAt
    ensures q.userAvatar == OrElse(p.userAvatar, DefaultAvatar)
    ensures q.mediaType == Some(OrElse(p.mediaType, "image"))
    ensures q.likes == OrZero(p.likes) && q.comments == OrZero(p.comments)
    ensures !q.liked
  {
    PostStore.Post(
      p.id, p.userId, p.username, OrElse(p.userAvatar, DefaultAvatar), p.imageUrl,
      Some(OrElse(p.mediaType, "image")), p.caption, OrZero(p.likes), OrZero(p.comments),
      p.createdAt, false)
  }

  /** The whole map: one normalised post per row, in the same order. */
  function NormalizeAll(rows: seq<RawPost>): (r: seq<PostStore.Post>)
    ensures |r| == |rows|
    ensures forall i :: 0 <= i < |r| ==> r[i] == Normalize(rows[i])
    decreases |rows|
  {
    if |rows| == 0 then [] else [Normalize(rows[0])] + NormalizeAll(rows[1..])
  }

  /** No normalised post is liked, each carries a non-empty avatar and media type. */
  lemma NormalizedPostsHaveDefaults(rows: seq<RawPost>)
    ensures forall i :: 0 <= i < |NormalizeAll(rows)| ==>
      var q := NormalizeAll(rows)[i];
      !q.liked && q.userAvatar != "" && q.mediaType.Some? && q.mediaType.value != ""
  {
  }

  /** Normalising an already normalised row changes nothing but the liked flag it already lacks. */
  lemma NormalizeIdempotent(p: RawPost)
    ensures var q := Normalize(p);
      Normalize(RawPost(q.id, q.userId, q.username, Some(q.userAvatar), q.imageUrl, q.mediaType,
                        q.caption, Some(q.likes), Some(q.comments), q.createdAt)) == q
  {
  }

  /** What the pre-check decides. */
  datatype Gate = RedirectToLogin | Fetch(token: string, auth: AuthState)

  /**
   * `checkAuthAndFetchPosts` up to the fetch: a missing token or saved user
   * sends the visitor to the login page without fetching; otherwise an empty
   * auth store is filled from the saved user and the feed is fetched.
   */
  function CheckAuth(store: Store, auth: AuthState): (g: Gate)
    ensures g.RedirectToLogin? <==> !Truthy(store.token) || store.user.None?
    ensures g.Fetch? ==> g.token == store.token.value
    ensures g.Fetch? && auth.user.None? ==> g.auth == SetUser(auth, store.user)
    ensures g.Fetch? && auth.user.Some? ==> g.auth == auth
  {
    if !Truthy(store.token) || store.user.None? then RedirectToLogin
    else Fetch(store.token.value, if auth.user.None? then SetUser(auth, store.user) else auth)
  }

  /** How the feed request ended: rows, an error status, or no answer at all. */
  datatype FeedAnswer = FeedRows(rows: seq<RawPost>) | FeedStatus(status: int) | FeedNoAnswer

  datatype HomeState = HomeState(posts: seq<PostStore.Post>, error: string, loading: bool)

  const MsgFeedFailed: string := "無法載入貼文，請檢查後端服務是否運行"

  /**
   * `fetchPosts` after its request: rows replace the store's list; a 401 or
   * 403 removes both saved entries; any other failure only reports an error.
   * The result also says whether the page redirects to login.
   */
  function ReceiveFeed(s: HomeState, store: Store, a: FeedAnswer): (res: (HomeState, Store, bool))
    ensures !res.0.loading
    ensures a.FeedRows? ==> res == (HomeState(NormalizeAll(a.rows), "", false), store, false)
    ensures a.FeedStatus? && (a.status == 401 || a.status == 403) ==>
      res.1 == Cleared && res.2 && res.0.posts == s.posts
    ensures (a.FeedNoAnswer? || (a.FeedStatus? && a.status != 401 && a.status != 403)) ==>
      res == (HomeState(s.posts, MsgFeedFailed, false), store, false)
  {
    match a
    case FeedRows(rows) => (HomeState(PostStore.SetPosts(NormalizeAll(rows)), "", false), store, false)
    case FeedStatus(st) =>
      if st == 401 || st == 403 then (s.(error := "", loading := false), Cleared, true)
      else (HomeState(s.posts, MsgFeedFailed, false), store, false)
    case FeedNoAnswer => (HomeState(s.posts, MsgFeedFailed, false), store, false)
  }

  /** After a rejected token the next visit's pre-check redirects instead of fetching. */
  lemma RejectedTokenForcesLogin(s: HomeState, store: Store, status: int, auth: AuthState)
    requires status == 401 || status == 403
    ensures CheckAuth(ReceiveFeed(s, store, FeedStatus(status)).1, auth) == RedirectToLogin
  {
  }
}
