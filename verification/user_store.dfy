/** The user store: the signed-in user, mirrored into the browser's local
    storage under the key 'user' whenever it is reassigned, and restored from
    there when the application starts. A user is a JSON object, modelled as
    field names to opaque values; serialising it into storage and parsing it
    back are taken to be inverse, so storage holds the object itself. */
module UserStore {
  import opened Wrappers

  /** A JSON object; the empty map is `{}`. */
  type Object = map<string, string>

  /** The store's state and the local storage it writes to. */
  datatype Session = Session(user: Object, storage: map<string, Object>)

  const UserKey := "user"

  /** `isAuthenticated`: the user's `Id` is truthy, that is present and not
      the empty string; the empty object `{}` the store falls back on is
      never authenticated. */
  function IsAuthenticated(user: Object): (b: bool)
    ensures b ==> "Id" in user
    ensures "Id" in user && user["Id"] != "" ==> b
    ensures "Id" in user && user["Id"] == "" ==> !b
    ensures user == map[] ==> !b
  {
    "Id" in user && user["Id"] != ""
  }

  /** The user the store starts with: the stored one when there is one,
      otherwise the empty object. */
  function InitialUser(storage: map<string, Object>): (u: Object)
    ensures UserKey in storage ==> u == storage[UserKey]
    ensures UserKey !in storage ==> u == map[] && !IsAuthenticated(u)
  {
    if UserKey in storage then storage[UserKey] else map[]
  }

  /** Creating the store; the watcher does not fire for the initial value. */
  function Start(storage: map<string, Object>): (r: Session)
    ensures r.storage == storage
    ensures UserKey in storage ==> r.user == storage[UserKey]
    ensures UserKey !in storage ==> r.user == map[] && !IsAuthenticated(r.user)
  {
    Session(InitialUser(storage), storage)
  }

  /** Reassigning the user, followed by the watcher: storage is cleared and
      then holds the new user under 'user' (an object is always truthy). */
  function Assign(s: Session, user: Object): (r: Session)
    ensures r.user == user
    ensures r.storage.Keys == {UserKey} && r.storage[UserKey] == user
  {
    Session(user, map[UserKey := user])
  }

  /** A restart after any reassignment restores the user that was assigned. */
  lemma RestartRestoresUser(s: Session, user: Object)
    ensures Start(Assign(s, user).storage).user == user
    ensures IsAuthenticated(Start(Assign(s, user).storage).user) <==> IsAuthenticated(user)
  {
  }

  /** `SignOut`: the user becomes the empty object, in memory and in storage
      (where `{}`, being truthy, is still written under 'user'). */
  function SignOut(s: Session): (r: Session)
    ensures r.user == map[] && r.storage == map[UserKey := map[]]
    ensures !IsAuthenticated(r.user)
    ensures !IsAuthenticated(Start(r.storage).user)
  {
    Assign(s, map[])
  }

  /** `Register`, given the server's answer: on success the registration
      response becomes the user, extra fields and all; on failure the error
      propagates and nothing changes. */
  function Register(s: Session, response: Result<Object, string>): (r: (Session, Option<string>))
    ensures response.Success? ==> r.0.user == response.value && r.1 == None
    ensures response.Success? ==> r.0.storage == map[UserKey := response.value]
    ensures response.Failure? ==> r.0 == s && r.1 == Some(response.error)
  {
    match response
    case Success(data) => (Assign(s, data), None)
    case Failure(e) => (s, Some(e))
  }

  /** `SignIn`, given the server's answer. Storage is cleared first. On
      success the session response, without its `Status` field, becomes the
      user; on failure storage is cleared again, the error is rethrown and
      the user in memory is left unchanged. */
  function SignIn(s: Session, response: Result<Object, string>): (r: (Session, Option<string>))
    ensures response.Success? ==>
              && r.1 == None
              && r.0.user.Keys == response.value.Keys - {"Status"}
              && (forall k :: k in r.0.user ==> r.0.user[k] == response.value[k])
              && r.0.storage == map[UserKey := r.0.user]
    ensures response.Failure? ==>
              r.0.user == s.user && r.0.storage == map[] && r.1 == Some(response.error)
  {
    var cleared := s.(storage := map[]);
    match response
    case Success(data) => (Assign(cleared, data - {"Status"}), None)
    case Failure(e) => (cleared, Some(e))
  }

  /** Signing in authenticates exactly when the server's answer carries a
      non-empty `Id`; the `Status` field never reaches the user. */
  lemma SignInAuthenticates(s: Session, data: Object)
    ensures IsAuthenticated(SignIn(s, Success(data)).0.user) <==> IsAuthenticated(data)
    ensures "Status" !in SignIn(s, Success(data)).0.user
  {
  }

  /** A failed sign-in keeps the user in memory but wipes storage, so a
      restart comes up signed out even if a user was signed in before. */
  lemma FailedSignInForgetsOnRestart(s: Session, e: string)
    ensures SignIn(s, Failure(e)).0.user == s.user
    ensures !IsAuthenticated(Start(SignIn(s, Failure(e)).0.storage).user)
  {
  }
}
