/**
 * `AuthProvider` of `src/contexts/AuthContext.tsx`: a client-only session whose user
 * record is kept in `localStorage` under `user`.
 */
module AuthContext {
  import opened Wrappers
  import Storage

  datatype User = User(username: string)

  const UserKey := "user"

  const CredentialsRequired := "Username and password are required"
  const UsernameTooShort := "Username must be at least 3 characters"
  const PasswordTooShort := "Password must be at least 6 characters"

  /**
   * The three checks of `login`, in order; `None` when all pass, otherwise the message
   * of the first that fails. Lengths are of the raw, untrimmed strings.
   */
  function ValidateCredentials(username: string, password: string): (r: Option<string>)
    ensures r == None <==> |username| >= 3 && |password| >= 6
    ensures r == Some(CredentialsRequired) <==> username == "" || password == ""
    ensures r == Some(UsernameTooShort) <==> username != "" && password != "" && |username| < 3
    ensures r == Some(PasswordTooShort) <==> |username| >= 3 && 0 < |password| < 6
  {
    if username == "" || password == "" then Some(CredentialsRequired)
    else if |username| < 3 then Some(UsernameTooShort)
    else if |password| < 6 then Some(PasswordTooShort)
    else None
  }

  /** The worked examples of login validation. */
  lemma ValidationExamples()
    ensures ValidateCredentials("ab", "123456") == Some(UsernameTooShort)
    ensures ValidateCredentials("abc", "123456") == None
  {
  }

  class AuthProvider {
    const storage: Storage.LocalStorage
    const userCodec: Storage.Codec<User>

    var isAuthenticated: bool
    var user: Option<User>
    var isLoading: bool
    var error: Option<string>

    /**
     * The session in memory is the session in the store: signed in with a user exactly
     * when the stored value restores to that user, signed out when nothing is stored.
     */
    ghost predicate Valid()
      reads this, storage
    {
      Storage.Lawful(userCodec) &&
      isAuthenticated == user.Some? &&
      Storage.Restore(storage.GetItem(UserKey), userCodec) ==
        (if isAuthenticated then Storage.Parsed(user.value) else Storage.NothingStored)
    }

    /** Mounting the provider: `isLoading` starts true, then the restore effect runs. */
    constructor (store: Storage.LocalStorage, codec: Storage.Codec<User>)
      requires Storage.Lawful(codec)
      modifies store
      ensures Valid()
      ensures storage == store && userCodec == codec
      ensures !isLoading && error == None
      ensures var restored := Storage.Restore(old(store.GetItem(UserKey)), codec);
        match restored
        case Parsed(u) => user == Some(u) && isAuthenticated && store.items == old(store.items)
        case Corrupt => user == None && !isAuthenticated && store.items == old(store.items) - {UserKey}
        case NothingStored => user == None && !isAuthenticated && store.items == old(store.items)
    {
      storage := store;
      userCodec := codec;
      isAuthenticated := false;
      user := None;
      isLoading := true;
      error := None;
      new;
      match Storage.Restore(store.GetItem(UserKey), codec) {
        case Parsed(u) =>
          user := Some(u);
          isAuthenticated := true;
        case Corrupt =>
          store.RemoveItem(UserKey);
        case NothingStored =>
      }
      isLoading := false;
    }

    /**
     * `login` up to its `await` (lines 40-54 of the source). Loading starts and the error
     * is cleared. A failed check throws before the `await`, so its `catch` and `finally`
     * run at once: the error is that check's message and loading ends. When every check
     * passes, the call is pending in the simulated delay: loading, no error, and nothing
     * committed. Neither path touches the user, the sign-in flag or the store.
     */
    method BeginLogin(username: string, password: string) returns (pending: bool)
      requires Valid()
      modifies this`isLoading, this`error
      ensures Valid()
      ensures pending <==> ValidateCredentials(username, password) == None
      ensures pending ==> isLoading && error == None
      ensures !pending ==> !isLoading && error == ValidateCredentials(username, password)
    {
      isLoading := true;
      error := None;
      var failure := ValidateCredentials(username, password);
      if failure.Some? {
        error := failure;
        isLoading := false;
        pending := false;
      } else {
        pending := true;
      }
    }

    /**
     * `login` after its `await` resumes, for the username it captured: the user is stored
     * and signed in, and the `finally` ends loading. The error is left as it is.
     */
    method CompleteLogin(username: string)
      requires Valid()
      modifies this`user, this`isAuthenticated, this`isLoading, storage
      ensures Valid()
      ensures user == Some(User(username)) && isAuthenticated && !isLoading
      ensures storage.items == old(storage.items)[UserKey := userCodec.encode(User(username))]
    {
      var newUser := User(username);
      storage.SetItem(UserKey, userCodec.encode(newUser));
      Storage.RestoreEncoded(userCodec, newUser);
      user := Some(newUser);
      isAuthenticated := true;
      isLoading := false;
    }

    /**
     * A `login` call with no other event during its delay. On success the user is stored
     * and signed in; on failure only `error` and `isLoading` change.
     */
    method Login(username: string, password: string) returns (ok: bool)
      requires Valid()
      modifies this, storage
      ensures Valid()
      ensures ok <==> ValidateCredentials(username, password) == None
      ensures !isLoading
      ensures ok ==>
        && user == Some(User(username)) && isAuthenticated && error == None
        && storage.items == old(storage.items)[UserKey := userCodec.encode(User(username))]
      ensures !ok ==>
        && error == ValidateCredentials(username, password)
        && user == old(user) && isAuthenticated == old(isAuthenticated)
        && storage.items == old(storage.items)
    {
      ok := BeginLogin(username, password);
      if ok {
        CompleteLogin(username);
      }
    }

    /** `logout()`: forgets the stored user and signs out. */
    method Logout()
      requires Valid()
      modifies this`user, this`isAuthenticated, storage
      ensures Valid()
      ensures user == None && !isAuthenticated
      ensures storage.items == old(storage.items) - {UserKey}
    {
      storage.RemoveItem(UserKey);
      user := None;
      isAuthenticated := false;
    }
  }

  /**
   * Two overlapping logins: the first to resume ends loading and signs in its user
   * while the second is still in its delay, so the form shows no loading for it.
   */
  method FirstLoginEndsLoadingEarly(p: AuthProvider, first: string, second: string, password: string)
    requires p.Valid()
    requires ValidateCredentials(first, password) == None
    requires ValidateCredentials(second, password) == None
    modifies p, p.storage
    ensures p.Valid()
    ensures !p.isLoading && p.error == None
    ensures p.user == Some(User(first)) && p.isAuthenticated
  {
    var firstPending := p.BeginLogin(first, password);
    var secondPending := p.BeginLogin(second, password);
    p.CompleteLogin(first);
  }
}
