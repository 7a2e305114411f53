/**
 * The pages run against the routes: what a user sees when the page's
 * requests are answered by the server model rather than by an arbitrary
 * outcome. The home feed, the like button and registration are connected here.
 */
module ClientServer {
  import opened Base
  import opened Db
  import opened Storage
  import opened AuthStore
  import PostsRoutes
  import ExplorePage
  import RegisterPage
  import AuthRoutes
  import AuthGate
  import HomePage

  /**
   * `n` presses of the explore page's like button on post `pid`, each request
   * answered by the post routes for `caller`. An answer other than 200 is a
   * rejected request to the page. Returns the page, the store and the
   * requests sent.
   */
  function LikePresses(s: ExplorePage.ExploreState, db: Db, token: Option<string>, pid: nat, caller: Option<nat>, n: nat)
    : (res: (ExplorePage.ExploreState, Db, seq<ExplorePage.LikeRequest>))
    ensures |res.2| == n
    decreases n
  {
    if n == 0 then (s, db, [])
    else
      var req := ExplorePage.HandleLike(s, token, pid, true).0;
      var (st, db1) :=
        match req
        case SendLike(_) => PostsRoutes.Like(db, pid, caller)
        case SendUnlike(_) => PostsRoutes.Unlike(db, pid, caller)
        case NoRequest => (Ok200, db);
      var s1 := ExplorePage.HandleLike(s, token, pid, st == Ok200).1;
      var rest := LikePresses(s1, db1, token, pid, caller, n - 1);
      (rest.0, rest.1, [req] + rest.2)
  }

  /**
   * The page starts every visit with an empty liked set. A post the user
   * liked on an earlier visit is therefore offered a like; the server
   * answers 409, the page keeps its state, and so every later press sends
   * another like: the like can never be taken back from this page.
   */
  lemma {:induction false} EarlierLikeCannotBeUndone(s: ExplorePage.ExploreState, db: Db, token: Option<string>, pid: nat, u: nat, n: nat)
    requires Truthy(token) && (pid, u) in db.likes && (pid as int) !in s.likedPosts
    ensures var r := LikePresses(s, db, token, pid, Some(u), n);
      r.0 == s && r.1 == db && forall i :: 0 <= i < n ==> r.2[i] == ExplorePage.SendLike(pid)
    decreases n
  {
    if n > 0 {
      EarlierLikeCannotBeUndone(s, db, token, pid, u, n - 1);
    }
  }

  /**
   * On a post the user has not liked, two presses like then unlike it, and
   * both the page and the store come back to where they started.
   */
  lemma FreshLikeRoundTrip(s: ExplorePage.ExploreState, db: Db, token: Option<string>, pid: nat, u: nat)
    requires Truthy(token) && (pid, u) !in db.likes && (pid as int) !in s.likedPosts
    ensures var r := LikePresses(s, db, token, pid, Some(u), 2);
      r.0 == s && r.1 == db && r.2 == [ExplorePage.SendLike(pid), ExplorePage.SendUnlike(pid)]
  {
    var s1 := ExplorePage.HandleLike(s, token, pid, true).1;
    var db1 := PostsRoutes.Like(db, pid, Some(u)).1;
    assert db1.likes == db.likes + {(pid, u)};
    PostsRoutes.LikeThenUnlikeRestores(db, pid, u);
    ExplorePage.ToggleTwiceRestores(s, token, pid);
    assert LikePresses(s1, db1, token, pid, Some(u), 1).2 == [ExplorePage.SendUnlike(pid)];
  }

  /** The server's view of the body the registration page sends. */
  function ServerBody(b: RegisterPage.RegisterBody): AuthRoutes.RegisterBody {
    AuthRoutes.RegisterBody(Some(b.username), Some(b.email), Some(b.password))
  }

  /** The page's view of the server's registration answer. */
  function PageAnswer(a: AuthRoutes.AuthAnswer): RegisterPage.RegisterAnswer {
    if a.status.IsSuccess() && a.token.Some? && a.user.Some? then
      RegisterPage.Registered(a.token.value, RegisterPage.AnswerUser(a.user.value.id, a.user.value.username, a.user.value.email, None))
    else
      RegisterPage.Failed(Some(a.message), "Request failed")
  }

  /**
   * A registration the page lets through, with a username and email no one
   * holds, is created by the server; the page then stores the token and a
   * user with the new id, and the auth store is logged in as that user.
   */
  lemma PageRegistrationSignsIn(db: Db, f: RegisterPage.RegisterForm, store: Store, auth: AuthState,
                                hash: (string, nat) -> string, sign: (AuthGate.Claims, string) -> string)
    requires RegisterPage.Validate(f).Send?
    requires f.username != "" && f.email != ""
    requires !AuthRoutes.Duplicate(db.users, f.username, f.email)
    ensures var (answer, db') := AuthRoutes.Register(db, ServerBody(RegisterPage.Validate(f).body), hash, sign);
      var page := RegisterPage.HandleRegister(f, store, auth, PageAnswer(answer));
      && answer.status == Created201
      && |db'.users| == |db.users| + 1
      && page.1.token == answer.token
      && page.1.user == Some(User(Some(db.nextUserId), f.username, f.email, None))
      && page.2.isLoggedIn && page.2.user == page.1.user
  {
  }

  /**
   * The page refuses passwords shorter than six characters, but the server
   * takes any non-empty one: a five-character password is refused by the
   * page and accepted by the route.
   */
  lemma ServerLaxerThanPage(db: Db, u: string, e: string, hash: (string, nat) -> string, sign: (AuthGate.Claims, string) -> string)
    requires u != "" && e != "" && !AuthRoutes.Duplicate(db.users, u, e)
    ensures RegisterPage.Validate(RegisterPage.RegisterForm(u, e, "abcde", "abcde")).Reject?
    ensures AuthRoutes.Register(db, AuthRoutes.RegisterBody(Some(u), Some(e), Some("abcde")), hash, sign).0.status == Created201
  {
  }

  /** A feed row as the page receives it; `render` writes the timestamp out as JSON does. */
  function RawRows(rows: seq<PostsRoutes.FeedRow>, render: int -> string): (r: seq<HomePage.RawPost>)
    ensures |r| == |rows|
    ensures forall i :: 0 <= i < |r| ==>
      && r[i].id == rows[i].id && r[i].mediaType == Some(rows[i].mediaType)
      && r[i].likes == Some(rows[i].likes as int) && r[i].userAvatar == rows[i].userAvatar
    decreases |rows|
  {
    if |rows| == 0 then []
    else
      var x := rows[0];
      [HomePage.RawPost(x.id, x.userId, x.username, x.userAvatar, x.imageUrl, Some(x.mediaType), x.caption,
                        Some(x.likes), Some(x.comments), render(x.createdAt))]
        + RawRows(rows[1..], render)
  }

  /**
   * The feed route takes no token, so the home page always gets rows: its
   * sign-in is never cleared there, even for an expired token, and each
   * shown post carries the server's media type and like count unchanged.
   */
  lemma FeedNeverRejectsToken(s: HomePage.HomeState, store: Store, db: Db, render: int -> string)
    ensures var rows := PostsRoutes.Feed(db);
      var (h, store', redirect) := HomePage.ReceiveFeed(s, store, HomePage.FeedRows(RawRows(rows, render)));
      && store' == store && !redirect && h.error == ""
      && |h.posts| == |rows|
      && forall i :: 0 <= i < |h.posts| ==>
           h.posts[i].id == rows[i].id && h.posts[i].mediaType == Some(rows[i].mediaType)
           && h.posts[i].likes == LikeCount(db, rows[i].id)
  {
    var rows := PostsRoutes.Feed(db);
    var raw := RawRows(rows, render);
    var posts := HomePage.NormalizeAll(raw);
    forall i | 0 <= i < |posts|
      ensures posts[i].id == rows[i].id && posts[i].mediaType == Some(rows[i].mediaType)
      ensures posts[i].likes == LikeCount(db, rows[i].id)
    {
      assert PostsRoutes.RowOf(db, rows[i], PostsRoutes.FeedPosts(db)[i]);
    }
  }
}
