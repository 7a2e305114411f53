/**
 * The client's authentication store (`useAuthStore`): the current user, or
 * none, and an `isLoggedIn` flag. The store is seeded from the `user` entry
 * saved in browser storage; `JSON.parse` of that entry is a parameter here
 * (`saved`), already read as a user record or as missing.
 */
module AuthStore {
  import opened Base

  /** The user record the client keeps (`{id?, username, email, avatar?}`). */
  datatype User = User(id: Option<int>, username: string, email: string, avatar: Option<string>)

  datatype AuthState = AuthState(user: Option<User>, isLoggedIn: bool)

  /** The store's invariant: logged in exactly when a user is held. */
  predicate Consistent(s: AuthState) {
    s.isLoggedIn <==> s.user.Some?
  }

  /**
   * The initial state: outside a browser there is no storage and no user;
   * in a browser the saved user (if any) is taken, and logged in iff present.
   */
  function Init(inBrowser: bool, saved: Option<User>): (s: AuthState)
    ensures s.user == (if inBrowser then saved else None)
    ensures s.isLoggedIn <==> inBrowser && saved.Some?
    ensures Consistent(s)
  {
    var savedUser := if inBrowser then saved else None;
    AuthState(savedUser, savedUser.Some?)
  }

  /** `setUser(u)`: holds `u`, logged in iff `u` is not null. */
  function SetUser(s: AuthState, u: Option<User>): (r: AuthState)
    ensures r.user == u
    ensures r.isLoggedIn <==> u.Some?
    ensures Consistent(r)
  {
    AuthState(u, u != None)
  }

  /** `logout()`: no user, not logged in. */
  function Logout(s: AuthState): (r: AuthState)
    ensures r.user.None? && !r.isLoggedIn
    ensures Consistent(r)
  {
    AuthState(None, false)
  }

  /** `login(u)`: holds `u` and is logged in. */
  function Login(s: AuthState, u: User): (r: AuthState)
    ensures r.user == Some(u) && r.isLoggedIn
    ensures Consistent(r)
  {
    AuthState(Some(u), true)
  }

  /** The actions a client component can dispatch on the store. */
  datatype Action = SetUserAction(u: Option<User>) | LogoutAction | LoginAction(who: User)

  function Apply(s: AuthState, a: Action): AuthState {
    match a
    case SetUserAction(u) => SetUser(s, u)
    case LogoutAction => Logout(s)
    case LoginAction(who) => Login(s, who)
  }

  /** Replaying any sequence of actions from `s`. */
  function Run(s: AuthState, actions: seq<Action>): AuthState
    decreases |actions|
  {
    if |actions| == 0 then s else Run(Apply(s, actions[0]), actions[1..])
  }

  /**
   * The invariant holds in every reachable state: it is established by `Init`
   * and no sequence of actions breaks it.
   */
  lemma {:induction false} InvariantAlwaysHolds(inBrowser: bool, saved: Option<User>, actions: seq<Action>)
    ensures Consistent(Run(Init(inBrowser, saved), actions))
  {
    RunPreservesConsistent(Init(inBrowser, saved), actions);
  }

  lemma {:induction false} RunPreservesConsistent(s: AuthState, actions: seq<Action>)
    requires Consistent(s)
    ensures Consistent(Run(s, actions))
    decreases |actions|
  {
    if |actions| > 0 {
      RunPreservesConsistent(Apply(s, actions[0]), actions[1..]);
    }
  }

  /** Logging out twice is logging out once, and forgets whatever was held. */
  lemma LogoutIdempotent(s: AuthState)
    ensures Logout(Logout(s)) == Logout(s)
    ensures Logout(s) == Init(false, s.user)
  {
  }

  /** `setUser` with a user is `login` with that user; with null it is `logout`. */
  lemma SetUserCoversLoginAndLogout(s: AuthState, u: Option<User>)
    ensures u.Some? ==> SetUser(s, u) == Login(s, u.value)
    ensures u.None? ==> SetUser(s, u) == Logout(s)
  {
  }
}
