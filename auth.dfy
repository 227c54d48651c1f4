/** The session provider: the signed-in user, the start-up `loading` flag
    and the browser's persisted key-value store holding the session token
    under the key "token". Each transition is a function on the session
    value; the provider object applies them to its fields. */
module Auth {
  import opened Outcomes

  datatype User = User(id: string, email: string)

  /** What the sign-in and sign-up calls answer on success. */
  datatype AuthResponse = AuthResponse(user: User, token: string)

  const TokenKey := "token"

  datatype Session = Session(user: Option<User>, loading: bool, storage: map<string, string>)

  /** `if (token)`: a stored token counts only when it is not empty. */
  predicate HasToken(storage: map<string, string>) {
    TokenKey in storage && storage[TokenKey] != ""
  }

  /** No user and still loading, over whatever the store already holds. */
  function Initial(storage: map<string, string>): Session {
    Session(None, true, storage)
  }

  /** The start-up effect: with a stored token, the outcome of verifying it
      either sets the user or removes the token; without one nothing is
      verified. Either way loading ends. */
  function AfterHydrate(s: Session, verification: Outcome<User>): Session {
    if !HasToken(s.storage) then s.(loading := false)
    else match verification
      case Success(u) => s.(user := Some(u), loading := false)
      case Failure(_) => s.(storage := s.storage - {TokenKey}, loading := false)
  }

  /** `login` and `signup`: on success the token is stored and the user set;
      a failed call throws before either is touched. */
  function AfterSignIn(s: Session, response: Outcome<AuthResponse>): Session {
    match response
    case Success(r) => s.(storage := s.storage[TokenKey := r.token], user := Some(r.user))
    case Failure(_) => s
  }

  /** `logout`: the token is removed and the user cleared. */
  function AfterLogout(s: Session): Session {
    s.(storage := s.storage - {TokenKey}, user := None)
  }

  /** A signed-in user always has a token in the store. */
  predicate SessionValid(s: Session) {
    s.user.Some? ==> TokenKey in s.storage
  }

  lemma InitialValid(storage: map<string, string>)
    ensures SessionValid(Initial(storage)) && Initial(storage).user.None? && Initial(storage).loading
  {
  }

  /** Start-up without a token ends loading, keeps the user absent and does
      not depend on any verification outcome. */
  lemma HydrateWithoutToken(storage: map<string, string>, v1: Outcome<User>, v2: Outcome<User>)
    requires !HasToken(storage)
    ensures AfterHydrate(Initial(storage), v1) == AfterHydrate(Initial(storage), v2)
    ensures AfterHydrate(Initial(storage), v1) == Session(None, false, storage)
  {
  }

  /** Start-up with a token: a verified user is signed in and keeps the
      token; a rejected token is removed and nobody is signed in. */
  lemma HydrateWithToken(storage: map<string, string>, verification: Outcome<User>)
    requires HasToken(storage)
    ensures var s := AfterHydrate(Initial(storage), verification);
      !s.loading
      && (verification.Success? ==> s.user == Some(verification.value) && s.storage == storage)
      && (verification.Failure? ==> s.user.None? && s.storage == storage - {TokenKey} && TokenKey !in s.storage)
  {
  }

  lemma SignInSpec(s: Session, response: Outcome<AuthResponse>)
    ensures response.Success? ==>
      AfterSignIn(s, response).user == Some(response.value.user)
      && AfterSignIn(s, response).storage[TokenKey] == response.value.token
      && (forall k :: k in s.storage && k != TokenKey ==>
            (k in AfterSignIn(s, response).storage && AfterSignIn(s, response).storage[k] == s.storage[k]))
    ensures response.Failure? ==> AfterSignIn(s, response) == s
  {
  }

  lemma LogoutSpec(s: Session)
    ensures AfterLogout(s).user.None? && TokenKey !in AfterLogout(s).storage
    ensures AfterLogout(s).loading == s.loading
    ensures AfterLogout(AfterLogout(s)) == AfterLogout(s)
  {
  }

  /** Every transition keeps a signed-in user's token in the store. */
  lemma TransitionsPreserveValid(s: Session, v: Outcome<User>, r: Outcome<AuthResponse>)
    requires SessionValid(s)
    ensures s.user.None? ==> SessionValid(AfterHydrate(s, v))
    ensures SessionValid(AfterSignIn(s, r))
    ensures SessionValid(AfterLogout(s))
  {
  }

  /** Signing in with an empty token stores it, but the next start-up
      treats an empty token as none and signs nobody in. */
  lemma EmptyTokenIsForgotten(s: Session, u: User, v: Outcome<User>)
    ensures var after := AfterSignIn(s, Success(AuthResponse(u, "")));
      after.user == Some(u)
      && AfterHydrate(Initial(after.storage), v).user.None?
  {
  }

  class AuthProvider {
    var user: Option<User>
    var loading: bool
    var storage: map<string, string>

    function State(): Session
      reads this
    {
      Session(user, loading, storage)
    }

    constructor (stored: map<string, string>)
      ensures State() == Initial(stored)
    {
      user := None;
      loading := true;
      storage := stored;
    }

    /** The mount effect; it runs once, while the provider is in its initial
        state. Returns whether a token was found and sent for verification. */
    method Hydrate(verification: Outcome<User>) returns (verified: bool)
      requires loading && user.None?
      modifies this
      ensures verified == HasToken(old(storage))
      ensures State() == AfterHydrate(old(State()), verification)
    {
      var token := if TokenKey in storage then storage[TokenKey] else "";
      if token != "" {
        verified := true;
        match verification {
          case Success(u) =>
            user := Some(u);
          case Failure(_) =>
            storage := storage - {TokenKey};
        }
        loading := false;
      } else {
        verified := false;
        loading := false;
      }
    }

    method StoreSession(response: AuthResponse)
      modifies this
      ensures State() == AfterSignIn(old(State()), Success(response))
    {
      storage := storage[TokenKey := response.token];
      user := Some(response.user);
    }

    /** `login(email, password)`; the outcome is that of the sign-in call:
        the returned promise resolves, or rejects with the call's error. */
    method Login(response: Outcome<AuthResponse>) returns (r: Outcome<()>)
      modifies this
      ensures State() == AfterSignIn(old(State()), response)
      ensures r.Success? <==> response.Success?
    {
      match response {
        case Success(resp) =>
          StoreSession(resp);
          r := Success(());
        case Failure(msg) =>
          r := Failure(msg);
      }
    }

    /** `signup(email, password)`: the same steps over the sign-up call. */
    method Signup(response: Outcome<AuthResponse>) returns (r: Outcome<()>)
      modifies this
      ensures State() == AfterSignIn(old(State()), response)
      ensures r.Success? <==> response.Success?
    {
      match response {
        case Success(resp) =>
          StoreSession(resp);
          r := Success(());
        case Failure(msg) =>
          r := Failure(msg);
      }
    }

    method Logout()
      modifies this
      ensures State() == AfterLogout(old(State()))
    {
      storage := storage - {TokenKey};
      user := None;
    }
  }
}
