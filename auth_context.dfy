/**
 * The signed-in user of the front end (frontend/src/contexts/AuthContext.tsx):
 * one record `{ token, role }`, replaced by `login` and `logout` and read by
 * `isAuthenticated`. The record lives in local storage; the value found
 * there when the provider starts is a parameter of the constructor.
 */
module AuthContext {
  import opened Wrappers

  datatype Role = Administrator | User

  datatype AuthUser = AuthUser(token: string, role: Option<Role>)

  /** `{ token: '', role: null }`. */
  const SignedOut := AuthUser("", None)

  /** `!!user.token`: any non-empty token counts, whatever the role. */
  predicate Authenticated(u: AuthUser) {
    u.token != ""
  }

  class AuthProvider {
    var user: AuthUser

    /** `useLocalStorage('user', { token: '', role: null })`. */
    constructor(stored: Option<AuthUser>)
      ensures user == stored.GetOr(SignedOut)
    {
      user := stored.GetOr(SignedOut);
    }

    function IsAuthenticated(): bool
      reads this
    {
      Authenticated(user)
    }

    /** The record becomes exactly the given token and role; only a non-empty token signs in. */
    method Login(token: string, role: Role)
      modifies this
      ensures user == AuthUser(token, Some(role))
      ensures IsAuthenticated() <==> token != ""
    {
      user := AuthUser(token, Some(role));
    }

    method Logout()
      modifies this
      ensures user == SignedOut && !IsAuthenticated()
    {
      user := SignedOut;
    }
  }

  /** What `useAuth()` returns: the server-side default, the provider's record, or an error outside a provider. */
  datatype AuthValue = ServerDefault | Provided(user: AuthUser) | NoProvider

  /** `useAuth()`, given whether there is a `window` and the enclosing provider's record, if any. */
  function UseAuth(hasWindow: bool, provider: Option<AuthUser>): AuthValue {
    if !hasWindow then ServerDefault
    else if provider.None? then NoProvider
    else Provided(provider.value)
  }

  /** The record a returned value exposes; the server-side default's is signed out. */
  function UserOf(v: AuthValue): Option<AuthUser> {
    match v
    case ServerDefault => Some(SignedOut)
    case Provided(u) => Some(u)
    case NoProvider => None
  }

  /** Its `isAuthenticated()`: constantly false for the server-side default. */
  predicate ValueAuthenticated(v: AuthValue) {
    v.Provided? && Authenticated(v.user)
  }

  // ---------------------------------------------------------------------------
  // Properties
  // ---------------------------------------------------------------------------

  /**
   * `isAuthenticated` agrees with the exposed record everywhere; rendering
   * on the server is never signed in, whatever provider there is.
   */
  lemma UseAuthOutcomes(hasWindow: bool, provider: Option<AuthUser>)
    ensures UseAuth(hasWindow, provider).NoProvider? <==> hasWindow && provider.None?
    ensures UserOf(UseAuth(hasWindow, provider)).Some? ==>
      (ValueAuthenticated(UseAuth(hasWindow, provider)) <==> Authenticated(UserOf(UseAuth(hasWindow, provider)).value))
    ensures !hasWindow ==> !ValueAuthenticated(UseAuth(hasWindow, provider)) && UserOf(UseAuth(hasWindow, provider)) == Some(SignedOut)
    ensures hasWindow && provider.Some? ==> UserOf(UseAuth(hasWindow, provider)) == provider
  {
  }
}
