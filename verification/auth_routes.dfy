/**
 * The server's `/auth` routes: registration and login. Password hashing and
 * checking (bcrypt) and token signing (JWT) are calls into libraries outside
 * this model, so they are parameters: `hash(password, rounds)`,
 * `compare(password, stored)` and `sign(claims, lifetime)`. What the lemmas
 * need of them is stated as a predicate on those parameters.
 */
module AuthRoutes {
  import opened Base
  import opened Text
  import opened Db
  import opened AuthGate

  /** The bcrypt cost factor the server hashes with. */
  const SaltRounds: nat := 10
  /** Every issued token expires after this lifetime. */
  const TokenLifetime: string := "7d"

  const MsgMissingFields: string := "缺少必要字段"
  const MsgDuplicate: string := "用戶名或信箱已存在"
  const MsgRegistered: string := "註冊成功"
  const MsgBadCredentials: string := "信箱或密碼錯誤"
  const MsgLoggedIn: string := "登入成功"

  /** The user object the routes answer with: never the password. */
  datatype PublicUser = PublicUser(id: nat, username: string, email: string)

  /** A JSON answer: status, message, and on success the token and the user. */
  datatype AuthAnswer = AuthAnswer(status: Status, message: string, token: Option<string>, user: Option<PublicUser>)

  /** A request body; a field the client left out is `None`. */
  datatype RegisterBody = RegisterBody(username: Option<string>, email: Option<string>, password: Option<string>)
  datatype LoginBody = LoginBody(email: Option<string>, password: Option<string>)

  /** What a correct bcrypt promises: a password matches its own hash. */
  ghost predicate HashMatches(hash: (string, nat) -> string, compare: (string, string) -> bool) {
    forall p: string :: compare(p, hash(p, SaltRounds))
  }

  /** Some user already holds this username or this email (a unique key would fail). */
  predicate Duplicate(users: seq<UserRow>, username: string, email: string) {
    exists i :: 0 <= i < |users| && (users[i].username == username || users[i].email == email)
  }

  function Reject(status: Status, message: string): AuthAnswer {
    AuthAnswer(status, message, None, None)
  }

  /**
   * `POST /auth/register`: 400 unless username, email and password are all
   * non-empty; 400 when the username or email is taken; otherwise a new row
   * with the next id and the hashed password, and a 201 answer carrying a
   * token for that id and the public user.
   */
  function Register(db: Db, body: RegisterBody, hash: (string, nat) -> string, sign: (Claims, string) -> string)
    : (res: (AuthAnswer, Db))
    ensures !(Truthy(body.username) && Truthy(body.email) && Truthy(body.password)) ==>
      res == (Reject(BadRequest400, MsgMissingFields), db)
    ensures (Truthy(body.username) && Truthy(body.email) && Truthy(body.password)
             && Duplicate(db.users, body.username.value, body.email.value)) ==>
      res == (Reject(BadRequest400, MsgDuplicate), db)
    ensures res.0.status == Created201 <==>
      Truthy(body.username) && Truthy(body.email) && Truthy(body.password)
      && !Duplicate(db.users, body.username.value, body.email.value)
    ensures res.0.status == Created201 ==>
      var id := db.nextUserId;
      && res.1 == db.(users := db.users + [UserRow(id, body.username.value, body.email.value,
                                                   hash(body.password.value, SaltRounds), None, None)],
                      nextUserId := id + 1)
      && res.0 == AuthAnswer(Created201, MsgRegistered,
                             Some(sign(Claims(Some(id), body.username.value), TokenLifetime)),
                             Some(PublicUser(id, body.username.value, body.email.value)))
    ensures res.0.status != Created201 ==> res.1 == db && res.0.token.None?
  {
    if !(Truthy(body.username) && Truthy(body.email) && Truthy(body.password)) then
      (Reject(BadRequest400, MsgMissingFields), db)
    else
      var u, e, p := body.username.value, body.email.value, body.password.value;
      if Duplicate(db.users, u, e) then (Reject(BadRequest400, MsgDuplicate), db)
      else
        var id := db.nextUserId;
        var db' := db.(users := db.users + [UserRow(id, u, e, hash(p, SaltRounds), None, None)], nextUserId := id + 1);
        (AuthAnswer(Created201, MsgRegistered, Some(sign(Claims(Some(id), u), TokenLifetime)), Some(PublicUser(id, u, e))), db')
  }

  /** Registration keeps ids, usernames and emails unique and below the next id. */
  lemma RegisterKeepsWellformed(db: Db, body: RegisterBody, hash: (string, nat) -> string, sign: (Claims, string) -> string)
    requires Wellformed(db)
    ensures Wellformed(Register(db, body, hash, sign).1)
  {
    var res := Register(db, body, hash, sign);
    if res.0.status == Created201 {
      var users' := res.1.users;
      var n := |db.users|;
      forall i, j | 0 <= i < j < |users'|
        ensures users'[i].id != users'[j].id
        ensures users'[i].username != users'[j].username
        ensures users'[i].email != users'[j].email
      {
        if j == n {
          assert users'[i] == db.users[i];
          assert !(users'[i].username == users'[j].username || users'[i].email == users'[j].email);
        }
      }
    }
  }

  /**
   * `POST /auth/login`: 400 unless email and password are non-empty; 401 with
   * one message whether the email is unknown or the password wrong;
   * otherwise 200 with a token for the user the email names.
   */
  function Login(db: Db, body: LoginBody, compare: (string, string) -> bool, sign: (Claims, string) -> string)
    : (res: AuthAnswer)
    ensures !(Truthy(body.email) && Truthy(body.password)) ==> res == Reject(BadRequest400, MsgMissingFields)
    ensures res.status == Ok200 <==>
      && Truthy(body.email) && Truthy(body.password)
      && FindUserByEmail(db.users, body.email.value).Some?
      && compare(body.password.value, FindUserByEmail(db.users, body.email.value).value.password)
    ensures Truthy(body.email) && Truthy(body.password) && res.status != Ok200 ==>
      res == Reject(Unauthorized401, MsgBadCredentials)
    ensures res.status == Ok200 ==>
      var u := FindUserByEmail(db.users, body.email.value).value;
      res == AuthAnswer(Ok200, MsgLoggedIn, Some(sign(Claims(Some(u.id), u.username), TokenLifetime)),
                        Some(PublicUser(u.id, u.username, u.email)))
  {
    if !(Truthy(body.email) && Truthy(body.password)) then Reject(BadRequest400, MsgMissingFields)
    else match FindUserByEmail(db.users, body.email.value)
      case None => Reject(Unauthorized401, MsgBadCredentials)
      case Some(u) =>
        if !compare(body.password.value, u.password) then Reject(Unauthorized401, MsgBadCredentials)
        else AuthAnswer(Ok200, MsgLoggedIn, Some(sign(Claims(Some(u.id), u.username), TokenLifetime)),
                        Some(PublicUser(u.id, u.username, u.email)))
  }

  /**
   * The answer does not tell an unknown email from a wrong password: both
   * get the same 401, so the route does not reveal which emails exist.
   */
  lemma LoginHidesWhichFieldWasWrong(db: Db, known: string, unknown: string, password: string,
                                     compare: (string, string) -> bool, sign: (Claims, string) -> string)
    requires known != "" && unknown != "" && password != ""
    requires FindUserByEmail(db.users, unknown).None?
    requires FindUserByEmail(db.users, known).Some?
    requires !compare(password, FindUserByEmail(db.users, known).value.password)
    ensures Login(db, LoginBody(Some(unknown), Some(password)), compare, sign)
         == Login(db, LoginBody(Some(known), Some(password)), compare, sign)
  {
  }

  /**
   * A user who just registered logs in with the same email and password: the
   * answer names the new id, and its token is signed for the same claims and
   * lifetime as the registration's token.
   */
  lemma RegisterThenLogin(db: Db, body: RegisterBody, hash: (string, nat) -> string,
                          compare: (string, string) -> bool, sign: (Claims, string) -> string)
    requires HashMatches(hash, compare)
    requires Register(db, body, hash, sign).0.status == Created201
    ensures var id, name := db.nextUserId, body.username.value;
      Login(Register(db, body, hash, sign).1, LoginBody(body.email, body.password), compare, sign)
        == AuthAnswer(Ok200, MsgLoggedIn, Some(sign(Claims(Some(id), name), TokenLifetime)),
                      Some(PublicUser(id, name, body.email.value)))
    ensures var (reg, db') := Register(db, body, hash, sign);
      Login(db', LoginBody(body.email, body.password), compare, sign).user == reg.user
  {
    var db' := Register(db, body, hash, sign).1;
    var e, p := body.email.value, body.password.value;
    var row := db'.users[|db.users|];
    assert row.email == e;
    var f := FindUserByEmail(db'.users, e);
    assert f.Some?;
    assert f.value == row;
    assert compare(p, hash(p, SaltRounds));
  }

  /**
   * A token the routes issue passes the bearer gate, when the signer and
   * verifier agree on it and it is one word (JWTs hold no spaces): the gate
   * hands on the id the token was issued for.
   */
  lemma IssuedTokenPassesGate(c: Claims, sign: (Claims, string) -> string, verify: string -> Option<Claims>)
    requires verify(sign(c, TokenLifetime)) == Some(c)
    requires sign(c, TokenLifetime) != "" && ' ' !in sign(c, TokenLifetime)
    ensures Authenticate(Some(BearerPrefix + sign(c, TokenLifetime)), verify) == Next(c.userId, c)
  {
    var tok := sign(c, TokenLifetime);
    var h := BearerPrefix + tok;
    assert StartsWith(h, BearerPrefix);
    TokenIsTextUpToNextSpace(h);
    var t := BearerToken(h).value;
    assert h[7..] == tok;
    assert t == tok;
  }
}
