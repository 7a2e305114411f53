/**
 * The decision logic of the server's user routes (`/users`): a profile with
 * its posts, updating one's own profile, following and unfollowing. The
 * `:userId` path segment is a string: the routes compare it as text with the
 * caller's id rendered by `toString()`, and the database reads it as an
 * integer (`Text.ParseId`). The caller's id is whatever the request carries;
 * as the server mounts these routes, no gate runs in front of them, so it is
 * always missing (`MountedUpdate`, `GatedUpdate`).
 */
module UsersRoutes {
  import opened Base
  import opened Text
  import opened Seqs
  import opened Db
  import opened AuthGate
  import AuthRoutes

  /** `SELECT id, username, email, bio, avatar FROM users`: the password is never selected. */
  datatype UserView = UserView(id: nat, username: string, email: string, bio: Option<string>, avatar: Option<string>)

  /** A post of the profile answer (no author join, no media type). */
  datatype ProfilePost = ProfilePost(id: nat, userId: nat, imageUrl: string, caption: string, createdAt: int, likes: nat, comments: nat)

  function View(u: UserRow): (v: UserView)
    ensures v.id == u.id && v.username == u.username && v.email == u.email
    ensures v.bio == u.bio && v.avatar == u.avatar
  {
    UserView(u.id, u.username, u.email, u.bio, u.avatar)
  }

  /** Row `r` is post `p` as the profile query selects it, with its like and comment counts. */
  predicate ProfileRowOf(db: Db, r: ProfilePost, p: PostRow) {
    && r.id == p.id && r.userId == p.userId && r.imageUrl == p.imageUrl
    && r.caption == p.caption && r.createdAt == p.createdAt
    && r.likes == LikeCount(db, p.id) && r.comments == CommentCount(db, p.id)
  }

  function ProfileRows(db: Db, s: seq<PostRow>): (r: seq<ProfilePost>)
    ensures |r| == |s|
    ensures forall i :: 0 <= i < |r| ==> ProfileRowOf(db, r[i], s[i])
    decreases |s|
  {
    if |s| == 0 then []
    else
      var p := s[0];
      [ProfilePost(p.id, p.userId, p.imageUrl, p.caption, p.createdAt, LikeCount(db, p.id), CommentCount(db, p.id))]
        + ProfileRows(db, s[1..])
  }

  function OwnedBy(u: nat): PostRow -> bool {
    (p: PostRow) => p.userId == u
  }

  /** The user row a path segment names, if any. */
  function UserAt(db: Db, path: string): Option<UserRow> {
    match ParseId(path)
    case None => None
    case Some(id) => FindUser(db.users, id)
  }

  /** The rows of user `uid`, newest first: every one owned, none dropped. */
  function UserPosts(db: Db, uid: nat): (r: seq<PostRow>)
    ensures SortedNewestFirst(r)
    ensures multiset(r) == multiset(Filter(db.posts, OwnedBy(uid)))
    ensures forall k :: 0 <= k < |r| ==> r[k].userId == uid
    ensures |r| == |Filter(db.posts, OwnedBy(uid))|
    ensures forall i, j :: 0 <= i < j < |r| ==> r[i].createdAt >= r[j].createdAt
  {
    var mine := Filter(db.posts, OwnedBy(uid));
    var sorted := SortNewestFirst(mine);
    forall k | 0 <= k < |sorted|
      ensures sorted[k].userId == uid
    {
      assert sorted[k] in multiset(mine);
    }
    assert forall i, j :: 0 <= i < j < |sorted| ==> NoOlder(sorted[i], sorted[j]);
    sorted
  }

  /**
   * `GET /users/:userId`: 404 when no user has that id; otherwise the user
   * (without password) and all of that user's posts, newest first.
   */
  function GetUser(db: Db, path: string): (res: (Status, Option<UserView>, seq<ProfilePost>))
    ensures UserAt(db, path).None? ==> res == (NotFound404, None, [])
    ensures UserAt(db, path).Some? ==>
      && res.0 == Ok200
      && res.1 == Some(View(UserAt(db, path).value))
      && |res.2| == |Filter(db.posts, OwnedBy(UserAt(db, path).value.id))|
      && (forall i :: 0 <= i < |res.2| ==> res.2[i].userId == UserAt(db, path).value.id)
      && (forall i, j :: 0 <= i < j < |res.2| ==> res.2[i].createdAt >= res.2[j].createdAt)
      && |res.2| == |UserPosts(db, UserAt(db, path).value.id)|
      && (forall i :: 0 <= i < |res.2| ==> ProfileRowOf(db, res.2[i], UserPosts(db, UserAt(db, path).value.id)[i]))
  {
    match UserAt(db, path)
    case None => (NotFound404, None, [])
    case Some(u) =>
      (Ok200, Some(View(u)), ProfileRows(db, UserPosts(db, u.id)))
  }

  // ---------------------------------------------------------------------
  // PUT /users/:userId

  /** The update body; a missing field is bound as SQL `NULL`. */
  datatype UpdateBody = UpdateBody(username: Option<string>, bio: Option<string>, avatar: Option<string>)

  /** `userId === req.userId?.toString()`: the path is the caller's id written out. */
  predicate IsCaller(path: string, caller: Option<nat>) {
    caller.Some? && path == NatToString(caller.value)
  }

  /** The users with a row at index other than `i` that use `name`. */
  predicate NameTakenByOther(users: seq<UserRow>, id: nat, name: string) {
    exists k :: 0 <= k < |users| && users[k].id != id && users[k].username == name
  }

  /** The users table with the row of id `id` given the body's fields. */
  function UpdateRow(users: seq<UserRow>, id: nat, name: string, bio: Option<string>, avatar: Option<string>): (r: seq<UserRow>)
    ensures |r| == |users|
    ensures forall i :: 0 <= i < |r| && users[i].id == id ==>
      r[i] == users[i].(username := name, bio := bio, avatar := avatar)
    ensures forall i :: 0 <= i < |r| && users[i].id != id ==> r[i] == users[i]
    decreases |users|
  {
    if |users| == 0 then []
    else
      var u := users[0];
      [if u.id == id then u.(username := name, bio := bio, avatar := avatar) else u]
        + UpdateRow(users[1..], id, name, bio, avatar)
  }

  /**
   * `PUT /users/:userId`: 403 unless the path is the caller's id. When the
   * caller has no row the update matches nothing and the answer is 200 with
   * no body. Otherwise a missing username cannot be stored (500), nor one
   * another user holds (the unique key fails: 500); else that user's
   * username, bio and avatar are set and the updated row is answered.
   */
  function UpdateUser(db: Db, path: string, caller: Option<nat>, body: UpdateBody): (res: (Status, Db, Option<UserView>))
    ensures !IsCaller(path, caller) ==> res == (Forbidden403, db, None)
    ensures IsCaller(path, caller) && FindUser(db.users, caller.value).None? ==> res == (Ok200, db, None)
    ensures IsCaller(path, caller) && FindUser(db.users, caller.value).Some? && body.username.None? ==>
      res == (ServerError500, db, None)
    ensures (IsCaller(path, caller) && FindUser(db.users, caller.value).Some? && body.username.Some?
             && NameTakenByOther(db.users, caller.value, body.username.value)) ==>
      res == (ServerError500, db, None)
    ensures res.0 == Ok200 <==>
      IsCaller(path, caller)
      && (FindUser(db.users, caller.value).Some? ==>
            body.username.Some? && !NameTakenByOther(db.users, caller.value, body.username.value))
    ensures res.0 == Ok200 && FindUser(db.users, caller.value).Some? ==>
      && body.username.Some?
      && res.1 == db.(users := UpdateRow(db.users, caller.value, body.username.value, body.bio, body.avatar))
      && res.2 == Some(View(FindUser(res.1.users, caller.value).value))
      && res.2.value.username == body.username.value && res.2.value.id == caller.value
  {
    if !IsCaller(path, caller) then (Forbidden403, db, None)
    else if FindUser(db.users, caller.value).None? then (Ok200, db, None)
    else if body.username.None? then (ServerError500, db, None)
    else if NameTakenByOther(db.users, caller.value, body.username.value) then (ServerError500, db, None)
    else
      var users' := UpdateRow(db.users, caller.value, body.username.value, body.bio, body.avatar);
      var db' := db.(users := users');
      (Ok200, db', match FindUser(users', caller.value) case None => None case Some(u) => Some(View(u)))
  }

  /**
   * A successful update touches only the caller's row and only its username,
   * bio and avatar: email, password and id stay, and so does every other user.
   */
  lemma UpdateTouchesOnlyProfileFields(db: Db, path: string, caller: Option<nat>, body: UpdateBody, i: nat)
    requires UpdateUser(db, path, caller, body).0 == Ok200
    requires i < |db.users|
    ensures var r := UpdateUser(db, path, caller, body).1.users[i];
      && r.id == db.users[i].id && r.email == db.users[i].email && r.password == db.users[i].password
      && (db.users[i].id != caller.value ==> r == db.users[i])
    ensures var db' := UpdateUser(db, path, caller, body).1;
      db'.posts == db.posts && db'.likes == db.likes && db'.follows == db.follows
  {
  }

  /** Setting a name no other user holds keeps the table constraints. */
  lemma UpdateRowKeepsWellformed(db: Db, id: nat, name: string, bio: Option<string>, avatar: Option<string>)
    requires Wellformed(db) && !NameTakenByOther(db.users, id, name)
    ensures Wellformed(db.(users := UpdateRow(db.users, id, name, bio, avatar)))
  {
    var users' := UpdateRow(db.users, id, name, bio, avatar);
    forall i, j | 0 <= i < j < |users'|
      ensures users'[i].id != users'[j].id
      ensures users'[i].username != users'[j].username
      ensures users'[i].email != users'[j].email
    {
    }
  }

  /** An update keeps the table constraints (the unique username check guards it). */
  lemma UpdateKeepsWellformed(db: Db, path: string, caller: Option<nat>, body: UpdateBody)
    requires Wellformed(db)
    ensures Wellformed(UpdateUser(db, path, caller, body).1)
  {
    var res := UpdateUser(db, path, caller, body);
    if res.0 == Ok200 && FindUser(db.users, caller.value).Some? {
      UpdateRowKeepsWellformed(db, caller.value, body.username.value, body.bio, body.avatar);
    }
  }

  /**
   * The route as the server mounts it: no gate runs, so the request carries
   * no caller id and every update is refused.
   */
  function MountedUpdate(db: Db, path: string, body: UpdateBody): (Status, Db, Option<UserView>) {
    UpdateUser(db, path, None, body)
  }

  /** As mounted, even the owner sending a valid token gets 403 and nothing changes. */
  lemma MountedUpdateAlwaysForbidden(db: Db, path: string, body: UpdateBody)
    ensures MountedUpdate(db, path, body) == (Forbidden403, db, None)
  {
  }

  /** The route behind the bearer-token gate, as the other protected routes are mounted. */
  function GatedUpdate(db: Db, header: Option<string>, verify: string -> Option<Claims>, path: string, body: UpdateBody)
    : (res: (Status, Db, Option<UserView>))
    ensures Authenticate(header, verify).Reject? ==> res == (Authenticate(header, verify).status, db, None)
    ensures Authenticate(header, verify).Next? ==> res == UpdateUser(db, path, Authenticate(header, verify).userId, body)
  {
    match Authenticate(header, verify)
    case Reject(st, _) => (st, db, None)
    case Next(uid, _) => UpdateUser(db, path, uid, body)
  }

  /**
   * Behind the gate, a caller whose token names user `u` can update the
   * profile at `/users/u` (given a username no one else holds), and the
   * answer is the updated row.
   */
  lemma GatedOwnerCanUpdate(db: Db, header: Option<string>, verify: string -> Option<Claims>, u: nat, body: UpdateBody, i: nat)
    requires Authenticate(header, verify).Next? && Authenticate(header, verify).userId == Some(u)
    requires Wellformed(db) && i < |db.users| && db.users[i].id == u
    requires body.username.Some? && !NameTakenByOther(db.users, u, body.username.value)
    ensures var res := GatedUpdate(db, header, verify, NatToString(u), body);
      && res.0 == Ok200
      && res.2 == Some(UserView(u, body.username.value, db.users[i].email, body.bio, body.avatar))
  {
    assert FindUser(db.users, u).Some?;
    var name := body.username.value;
    var users' := UpdateRow(db.users, u, name, body.bio, body.avatar);
    UpdateRowKeepsWellformed(db, u, name, body.bio, body.avatar);
    assert users'[i] == db.users[i].(username := name, bio := body.bio, avatar := body.avatar);
    var f := FindUser(users', u);
    assert f.Some?;
    var k :| 0 <= k < |users'| && users'[k] == f.value;
    assert k == i;
  }

  // ---------------------------------------------------------------------
  // follows

  /**
   * `POST /users/:userId/follow` as written: 400 when the path is the caller's
   * id as text; 409 when the (followed, follower) pair exists; otherwise that
   * pair is inserted. A missing follower or a path that is not a number cannot
   * be stored (500).
   */
  function Follow(db: Db, path: string, follower: Option<nat>): (res: (Status, Db))
    ensures IsCaller(path, follower) ==> res == (BadRequest400, db)
    ensures !IsCaller(path, follower) && (follower.None? || ParseId(path).None?) ==> res == (ServerError500, db)
    ensures !IsCaller(path, follower) && follower.Some? && ParseId(path).Some? ==>
      var pair := (ParseId(path).value, follower.value);
      && (pair in db.follows ==> res == (Conflict409, db))
      && (pair !in db.follows ==> res == (Ok200, db.(follows := db.follows + {pair})))
  {
    if IsCaller(path, follower) then (BadRequest400, db)
    else if follower.None? || ParseId(path).None? then (ServerError500, db)
    else
      var pair := (ParseId(path).value, follower.value);
      if pair in db.follows then (Conflict409, db)
      else (Ok200, db.(follows := db.follows + {pair}))
  }

  /**
   * The self-follow guard compares text, so a path with a leading zero names
   * the caller yet passes it: user 5 following `/users/05` follows itself.
   */
  lemma LeadingZeroFollowsSelf(db: Db)
    requires (5, 5) !in db.follows
    ensures Follow(db, "05", Some(5)) == (Ok200, db.(follows := db.follows + {(5, 5)}))
  {
    assert NatToString(5) == "5";
    assert ParseId("05") == Some(5) by {
      assert AllDigits("05");
      assert "05"[..1] == "0";
      assert DecimalValue("0") == 0 by { assert "0"[..0] == ""; }
    }
  }

  /** The follow route with the guard comparing the path as the number the database reads. */
  function FollowChecked(db: Db, path: string, follower: Option<nat>): (res: (Status, Db))
    ensures follower.Some? && ParseId(path) == follower ==> res == (BadRequest400, db)
    ensures res.0 == Ok200 ==> follower.Some? && ParseId(path).Some? && ParseId(path) != follower
    ensures res.0 == Ok200 ==> res.1 == db.(follows := db.follows + {(ParseId(path).value, follower.value)})
    ensures res.0 != Ok200 ==> res.1 == db
  {
    if follower.Some? && ParseId(path) == follower then (BadRequest400, db)
    else Follow(db, path, follower)
  }

  /** With the numeric guard, following never creates a pair of a user with itself. */
  lemma FollowCheckedNeverSelf(db: Db, path: string, follower: Option<nat>, x: nat)
    requires (x, x) !in db.follows
    ensures (x, x) !in FollowChecked(db, path, follower).1.follows
  {
    if IsCaller(path, follower) {
      ParseNatToString(follower.value);
    }
  }

  /** A repeated follow is refused with 409 and changes nothing. */
  lemma FollowTwiceConflicts(db: Db, path: string, follower: Option<nat>)
    requires Follow(db, path, follower).0 == Ok200
    ensures var db' := Follow(db, path, follower).1;
      Follow(db', path, follower) == (Conflict409, db')
  {
  }

  /** `POST /users/:userId/unfollow`: the pair is removed whether or not it existed. */
  function Unfollow(db: Db, path: string, follower: Option<nat>): (res: (Status, Db))
    ensures res.0 == Ok200
    ensures follower.Some? && ParseId(path).Some? ==>
      res.1 == db.(follows := db.follows - {(ParseId(path).value, follower.value)})
    ensures follower.None? || ParseId(path).None? ==> res.1 == db
  {
    if follower.None? || ParseId(path).None? then (Ok200, db)
    else (Ok200, db.(follows := db.follows - {(ParseId(path).value, follower.value)}))
  }

  /** Unfollowing twice is unfollowing once; a follow then unfollow gives back the store. */
  lemma UnfollowIdempotent(db: Db, path: string, follower: Option<nat>)
    ensures Unfollow(Unfollow(db, path, follower).1, path, follower) == Unfollow(db, path, follower)
    ensures Follow(db, path, follower).0 == Ok200 ==> Unfollow(Follow(db, path, follower).1, path, follower).1 == db
  {
    if follower.Some? && ParseId(path).Some? {
      var pair := (ParseId(path).value, follower.value);
      assert db.follows - {pair} - {pair} == db.follows - {pair};
      if Follow(db, path, follower).0 == Ok200 {
        assert db.follows + {pair} - {pair} == db.follows;
      }
    }
  }

  // ---------------------------------------------------------------------
  // the profile after the write routes

  /**
   * After a successful update, the caller's profile shows the new username,
   * bio and avatar (or is not found, when the caller has no row at all).
   */
  lemma UpdateShowsInProfile(db: Db, u: nat, body: UpdateBody)
    requires UpdateUser(db, NatToString(u), Some(u), body).0 == Ok200
    ensures var g := GetUser(UpdateUser(db, NatToString(u), Some(u), body).1, NatToString(u));
      && (FindUser(db.users, u).None? ==> g.0 == NotFound404)
      && (FindUser(db.users, u).Some? ==>
            && g.0 == Ok200
            && g.1.Some? && g.1.value.id == u
            && g.1.value.username == body.username.value
            && g.1.value.bio == body.bio && g.1.value.avatar == body.avatar)
  {
    var db' := UpdateUser(db, NatToString(u), Some(u), body).1;
    ParseNatToString(u);
    assert UserAt(db', NatToString(u)) == FindUser(db'.users, u);
    if FindUser(db.users, u).None? {
      assert db' == db;
    } else {
      var name := body.username.value;
      var users' := UpdateRow(db.users, u, name, body.bio, body.avatar);
      assert db'.users == users';
      var r := FindUser(users', u).value;
      var j :| 0 <= j < |users'| && users'[j] == r;
      assert db.users[j].id == u;
      assert r == db.users[j].(username := name, bio := body.bio, avatar := body.avatar);
    }
  }

  /** A newly registered user has a profile under the id the registration gave them. */
  lemma RegisteredUserHasProfile(db: Db, body: AuthRoutes.RegisterBody,
                                 hash: (string, nat) -> string, sign: (Claims, string) -> string)
    requires Wellformed(db)
    requires AuthRoutes.Register(db, body, hash, sign).0.status == Created201
    ensures var g := GetUser(AuthRoutes.Register(db, body, hash, sign).1, NatToString(db.nextUserId));
      && g.0 == Ok200
      && g.1 == Some(UserView(db.nextUserId, body.username.value, body.email.value, None, None))
  {
    var users' := AuthRoutes.Register(db, body, hash, sign).1.users;
    ParseNatToString(db.nextUserId);
    assert users'[|db.users|].id == db.nextUserId;
    forall k | 0 <= k < |db.users|
      ensures users'[k].id != db.nextUserId
    {
      assert users'[k] == db.users[k];
    }
    var r := FindUser(users', db.nextUserId).value;
    var j :| 0 <= j < |users'| && users'[j] == r;
    assert j == |db.users|;
  }
}
