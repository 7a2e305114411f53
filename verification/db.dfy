/**
 * The server's relational store as an immutable value: the `users` and
 * `posts` tables as sequences of rows in insertion (id) order, `likes` as a
 * set of (post id, user id) pairs, `follows` as a set of (followed id,
 * follower id) pairs, `comments` as the multiset of the post ids they are
 * attached to, the outcome of the `SHOW COLUMNS ... LIKE 'mediaType'` probe,
 * and the next auto-increment ids. Also the `ORDER BY createdAt DESC`
 * ordering the post queries share.
 */
module Db {
  import opened Base

  datatype UserRow = UserRow(
    id: nat,
    username: string,
    email: string,
    password: string,
    bio: Option<string>,
    avatar: Option<string>)

  datatype PostRow = PostRow(
    id: nat,
    userId: nat,
    caption: string,
    imageUrl: string,
    mediaType: Option<string>,
    createdAt: int)

  datatype Db = Db(
    users: seq<UserRow>,
    posts: seq<PostRow>,
    likes: set<(nat, nat)>,
    follows: set<(nat, nat)>,
    comments: multiset<nat>,
    hasMediaType: bool,
    nextUserId: nat,
    nextPostId: nat)

  /**
   * The table constraints: user ids, usernames and emails are unique, post
   * ids are unique, and every id is below the next auto-increment value.
   */
  predicate Wellformed(db: Db) {
    && (forall i, j :: 0 <= i < j < |db.users| ==>
          db.users[i].id != db.users[j].id
          && db.users[i].username != db.users[j].username
          && db.users[i].email != db.users[j].email)
    && (forall i :: 0 <= i < |db.users| ==> db.users[i].id < db.nextUserId)
    && (forall i, j :: 0 <= i < j < |db.posts| ==> db.posts[i].id != db.posts[j].id)
    && (forall i :: 0 <= i < |db.posts| ==> db.posts[i].id < db.nextPostId)
  }

  /**
   * The first row, in table order, that a `WHERE` condition selects: found
   * exactly when some row meets the condition.
   */
  function FindFirst<T>(rows: seq<T>, where: T -> bool): (r: Option<T>)
    ensures r.Some? ==> r.value in rows && where(r.value)
    ensures r.None? <==> forall i :: 0 <= i < |rows| ==> !where(rows[i])
    decreases |rows|
  {
    if |rows| == 0 then None
    else if where(rows[0]) then Some(rows[0])
    else FindFirst(rows[1..], where)
  }

  /** `SELECT ... FROM users WHERE id = ?`: the row with that id, if any. */
  function FindUser(users: seq<UserRow>, id: nat): (r: Option<UserRow>)
    ensures r.Some? ==> r.value in users && r.value.id == id
    ensures r.None? <==> forall i :: 0 <= i < |users| ==> users[i].id != id
  {
    FindFirst(users, (u: UserRow) => u.id == id)
  }

  /** `SELECT * FROM users WHERE email = ?`, first row. */
  function FindUserByEmail(users: seq<UserRow>, email: string): (r: Option<UserRow>)
    ensures r.Some? ==> r.value in users && r.value.email == email
    ensures r.None? <==> forall i :: 0 <= i < |users| ==> users[i].email != email
  {
    FindFirst(users, (u: UserRow) => u.email == email)
  }

  /** `SELECT * FROM posts WHERE id = ?`. */
  function FindPost(posts: seq<PostRow>, id: nat): (r: Option<PostRow>)
    ensures r.Some? ==> r.value in posts && r.value.id == id
    ensures r.None? <==> forall i :: 0 <= i < |posts| ==> posts[i].id != id
  {
    FindFirst(posts, (p: PostRow) => p.id == id)
  }

  /** In a store with unique ids, the row found by id is the row at any index with that id. */
  lemma FindUserUnique(db: Db, i: nat)
    requires Wellformed(db) && i < |db.users|
    ensures FindUser(db.users, db.users[i].id) == Some(db.users[i])
  {
    var r := FindUser(db.users, db.users[i].id);
    var j :| 0 <= j < |db.users| && db.users[j] == r.value;
  }

  /** `(SELECT COUNT(*) FROM likes WHERE postId = p.id)`. */
  function LikeCount(db: Db, postId: nat): nat {
    |set l | l in db.likes && l.0 == postId|
  }

  /** `(SELECT COUNT(*) FROM comments WHERE postId = p.id)`. */
  function CommentCount(db: Db, postId: nat): nat {
    db.comments[postId]
  }

  // ---------------------------------------------------------------------
  // ORDER BY createdAt DESC

  /**
   * `a` may be listed before `b`: it is newer, or equally new with an id at
   * least as large. SQL leaves the order of equal timestamps open; the model
   * lists the later-inserted row first.
   */
  predicate NoOlder(a: PostRow, b: PostRow) {
    a.createdAt > b.createdAt || (a.createdAt == b.createdAt && a.id >= b.id)
  }

  predicate SortedNewestFirst(s: seq<PostRow>) {
    forall i, j :: 0 <= i < j < |s| ==> NoOlder(s[i], s[j])
  }

  /** Putting a row no older than every element in front keeps a list newest-first. */
  lemma ConsSorted(h: PostRow, rest: seq<PostRow>)
    requires SortedNewestFirst(rest)
    requires forall k :: 0 <= k < |rest| ==> NoOlder(h, rest[k])
    ensures SortedNewestFirst([h] + rest)
  {
    forall i, j | 0 <= i < j < |[h] + rest|
      ensures NoOlder(([h] + rest)[i], ([h] + rest)[j])
    {
      if i > 0 {
        assert ([h] + rest)[i] == rest[i - 1];
      }
      assert ([h] + rest)[j] == rest[j - 1];
    }
  }

  /**
   * When `p` is strictly older than the head `h` of a newest-first list, the
   * head is no older than anything in the tail with `p` added.
   */
  lemma HeadStaysFirst(h: PostRow, p: PostRow, t: seq<PostRow>, rest: seq<PostRow>)
    requires SortedNewestFirst([h] + t)
    requires !NoOlder(p, h)
    requires multiset(rest) == multiset(t) + multiset{p}
    ensures forall k :: 0 <= k < |rest| ==> NoOlder(h, rest[k])
  {
    forall k | 0 <= k < |rest|
      ensures NoOlder(h, rest[k])
    {
      assert rest[k] in multiset(rest);
      if rest[k] != p {
        assert rest[k] in multiset(t);
        var m :| 0 <= m < |t| && t[m] == rest[k];
        assert ([h] + t)[0] == h && ([h] + t)[m + 1] == rest[k];
        assert NoOlder(([h] + t)[0], ([h] + t)[m + 1]);
      } else {
        assert NoOlder(h, p);
      }
    }
  }

  /** Insert one row into a newest-first list. */
  function InsertByDate(p: PostRow, s: seq<PostRow>): (r: seq<PostRow>)
    requires SortedNewestFirst(s)
    ensures SortedNewestFirst(r)
    ensures multiset(r) == multiset(s) + multiset{p}
    ensures |r| == |s| + 1
    decreases |s|
  {
    if |s| == 0 then [p]
    else if NoOlder(p, s[0]) then
      ConsSorted(p, s);
      [p] + s
    else
      assert s == [s[0]] + s[1..];
      var rest := InsertByDate(p, s[1..]);
      HeadStaysFirst(s[0], p, s[1..], rest);
      ConsSorted(s[0], rest);
      [s[0]] + rest
  }

  /** `ORDER BY createdAt DESC` over a list of rows. */
  function SortNewestFirst(s: seq<PostRow>): (r: seq<PostRow>)
    ensures SortedNewestFirst(r)
    ensures multiset(r) == multiset(s)
    ensures |r| == |s|
    decreases |s|
  {
    if |s| == 0 then []
    else
      assert s == [s[0]] + s[1..];
      InsertByDate(s[0], SortNewestFirst(s[1..]))
  }

  /** In a newest-first list, every row past the first `n` is no newer than any of the first `n`. */
  lemma PrefixIsNewest(s: seq<PostRow>, n: nat, p: PostRow)
    requires SortedNewestFirst(s) && n <= |s|
    requires p in s && p !in s[..n]
    ensures forall k :: 0 <= k < n ==> NoOlder(s[k], p)
  {
    var m :| 0 <= m < |s| && s[m] == p;
  }
}
