/** `Authenticator`: users and their password hashes, kept in a credentials storage
    that maps a username to a stored hash. */
module Auth {
  import opened Wrappers

  /** What the password hasher says of a stored hash and a password. */
  datatype Verdict =
    | Verified   // the password matches the hash
    | Mismatch   // VerifyMismatchError: the password does not match
    | Invalid    // any other verification error, which propagates

  /** The password hasher: `hash(password)` and `verify(hash, password)`. */
  datatype Hasher = Hasher(hash: string -> string, verify: (string, string) -> Verdict)

  /** The one property of the hasher the authenticator relies on: a password verifies
      against its own hash. */
  predicate VerifiesOwnHash(hasher: Hasher, password: string) {
    hasher.verify(hasher.hash(password), password) == Verified
  }

  /** Errors escaping the authenticator. */
  datatype AuthError =
    | UnknownUser       // KeyError: removing a user the storage does not hold
    | VerificationError // the hasher could not verify the stored hash

  /** `if read_hashed_password(username):` — a stored hash that is present and not empty. */
  predicate HasUser(credentials: map<string, string>, username: string) {
    username in credentials && credentials[username] != ""
  }

  /** The credentials and the result after `add_user(username, password)`: an existing
      user is refused and nothing is written; otherwise the hash of the password is
      stored under the username. */
  function AddUserSpec(credentials: map<string, string>, hasher: Hasher, username: string, password: string)
    : (r: (map<string, string>, bool))
    ensures r.1 <==> !HasUser(credentials, username)
    ensures !r.1 ==> r.0 == credentials
    ensures r.1 ==> username in r.0 && r.0[username] == hasher.hash(password)
    ensures forall u :: u != username ==> (u in r.0 <==> u in credentials)
    ensures forall u :: u != username && u in credentials ==> r.0[u] == credentials[u]
  {
    if HasUser(credentials, username) then (credentials, false)
    else (credentials[username := hasher.hash(password)], true)
  }

  /** The credentials after `remove_user(username)`; removing an unknown user raises. */
  function RemoveUserSpec(credentials: map<string, string>, username: string)
    : (r: Result<map<string, string>, AuthError>)
    ensures r.Failure? <==> username !in credentials
    ensures r.Failure? ==> r.error == UnknownUser
    ensures r.Success? ==> username !in r.value
    ensures r.Success? ==> forall u :: u != username ==> (u in r.value <==> u in credentials)
    ensures r.Success? ==> forall u :: u != username && u in credentials ==> r.value[u] == credentials[u]
  {
    if username !in credentials then Failure(UnknownUser)
    else Success(credentials - {username})
  }

  /** `auth_user(username, password)`: false without a stored hash, otherwise whether the
      hasher verifies the password against it. */
  function AuthUserSpec(credentials: map<string, string>, hasher: Hasher, username: string, password: string)
    : (r: Result<bool, AuthError>)
    ensures username !in credentials ==> r == Success(false)
    ensures username in credentials ==>
      match hasher.verify(credentials[username], password)
      case Verified => r == Success(true)
      case Mismatch => r == Success(false)
      case Invalid => r == Failure(VerificationError)
    ensures r == Success(true) ==> username in credentials && hasher.verify(credentials[username], password) == Verified
  {
    if username !in credentials then Success(false)
    else
      match hasher.verify(credentials[username], password)
      case Verified => Success(true)
      case Mismatch => Success(false)
      case Invalid => Failure(VerificationError)
  }

  /** A user just added authenticates with the password it was added with. */
  lemma AddedUserAuthenticates(credentials: map<string, string>, hasher: Hasher, username: string, password: string)
    requires VerifiesOwnHash(hasher, password)
    ensures var (after, added) := AddUserSpec(credentials, hasher, username, password);
      added ==> AuthUserSpec(after, hasher, username, password) == Success(true)
  {
  }

  /** Adding a user never changes whether another user authenticates. */
  lemma AddUserKeepsOthers(credentials: map<string, string>, hasher: Hasher, username: string, password: string,
                           other: string, otherPassword: string)
    requires other != username
    ensures AuthUserSpec(AddUserSpec(credentials, hasher, username, password).0, hasher, other, otherPassword)
      == AuthUserSpec(credentials, hasher, other, otherPassword)
  {
  }

  /** A removed user no longer authenticates. */
  lemma RemovedUserFails(credentials: map<string, string>, hasher: Hasher, username: string, password: string)
    requires username in credentials
    ensures AuthUserSpec(RemoveUserSpec(credentials, username).value, hasher, username, password) == Success(false)
  {
  }

  /** The authenticator over its credentials storage. */
  class Authenticator {
    var credentials: map<string, string>
    const hasher: Hasher

    constructor (credentials: map<string, string>, hasher: Hasher)
      ensures this.credentials == credentials && this.hasher == hasher
    {
      this.credentials := credentials;
      this.hasher := hasher;
    }

    /** `add_user(username, password)`. */
    method AddUser(username: string, password: string) returns (added: bool)
      modifies this
      ensures (credentials, added) == AddUserSpec(old(credentials), hasher, username, password)
    {
      if username in credentials && credentials[username] != "" {
        return false;
      }
      credentials := credentials[username := hasher.hash(password)];
      added := true;
    }

    /** `remove_user(username)`. */
    method RemoveUser(username: string) returns (r: Result<(), AuthError>)
      modifies this
      ensures var s := RemoveUserSpec(old(credentials), username);
        && (s.Failure? ==> credentials == old(credentials) && r == Failure(s.error))
        && (s.Success? ==> credentials == s.value && r == Success(()))
    {
      if username !in credentials {
        return Failure(UnknownUser);
      }
      credentials := credentials - {username};
      r := Success(());
    }

    /** `auth_user(username, password)`. */
    function AuthUser(username: string, password: string): (r: Result<bool, AuthError>)
      reads this
      ensures r == Success(true) ==> username in credentials && hasher.verify(credentials[username], password) == Verified
      ensures username !in credentials ==> r == Success(false)
    {
      AuthUserSpec(credentials, hasher, username, password)
    }
  }
}
