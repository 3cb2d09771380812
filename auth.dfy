/**
 * `AuthManager` as an object: the fields `currentUser` and `isAuthenticated`,
 * plus the key-value store it reads and writes, held here as a third field.
 * Each method performs the source's steps in order and is proved to end in
 * the state, and resolve to the value, that the `Session` function of the
 * same name gives; what is proved about those functions therefore holds of
 * the object.
 */
module Auth {
  import opened Wrappers
  import opened Text
  import opened Session

  class AuthManager {
    var currentUser: Option<User>
    var isAuthenticated: bool
    /** The browser's localStorage as this object sees it. */
    var store: Store
    const authProviders: seq<string>

    /** The object's state as a value. */
    function Snapshot(): State
      reads this
    {
      State(currentUser, isAuthenticated, store)
    }

    predicate Valid()
      reads this
    {
      Consistent(Snapshot()) && authProviders == AuthProviders
    }

    /** `new AuthManager()`: anonymous, then restore any saved session. */
    constructor(initial: Store)
      ensures Valid()
      ensures Snapshot() == Session.CheckExistingSession(Fresh(initial))
    {
      currentUser := None;
      isAuthenticated := false;
      store := initial;
      authProviders := AuthProviders;
      new;
      CheckExistingSession();
    }

    method CheckExistingSession()
      modifies this
      ensures Snapshot() == Session.CheckExistingSession(old(Snapshot()))
    {
      if Truthy(store, UserKey) && Truthy(store, TokenKey) {
        match store[UserKey]
        case UserJson(u) =>
          currentUser := Some(u);
          isAuthenticated := true;
        case _ =>
          ClearAuthData();
      }
    }

    method SaveUserData()
      modifies this
      ensures Snapshot() == Session.SaveUserData(old(Snapshot()))
    {
      if currentUser.Some? {
        store := store[UserKey := UserJson(currentUser.value)];
      }
    }

    method SaveAuthToken(env: Env)
      modifies this
      ensures Snapshot() == Session.SaveAuthToken(old(Snapshot()), env)
    {
      store := store[TokenKey := Text(TokenPrefix + env.tokenTail)];
    }

    method ClearAuthData()
      modifies this
      ensures Snapshot() == Session.ClearAuthData(old(Snapshot()))
    {
      currentUser := None;
      isAuthenticated := false;
      store := store - {UserKey};
      store := store - {TokenKey};
      assert store == old(store) - {UserKey, TokenKey};
    }

    method ClearUserGeneratedData()
      modifies this
      ensures Snapshot() == Session.ClearUserGeneratedData(old(Snapshot()))
    {
      store := store - {WishlistKey};
      store := store - {OwnedKey};
      assert store == old(store) - {WishlistKey, OwnedKey};
    }

    method SetAuthenticatedUser(user: User, env: Env)
      modifies this
      ensures Snapshot() == Session.SetAuthenticatedUser(old(Snapshot()), user, env)
    {
      currentUser := Some(user);
      isAuthenticated := true;
      SaveUserData();
      SaveAuthToken(env);
    }

    method SignInWithEmail(email: string, password: string, env: Env) returns (reply: Reply)
      requires Valid()
      modifies this
      ensures Valid()
      ensures Outcome(Snapshot(), reply) == Session.SignInWithEmail(old(Snapshot()), email, password, env)
    {
      if !ValidateEmail(email) {
        return Failed(InvalidEmail);
      }
      if |password| < 6 {
        return Failed(ShortPassword);
      }
      if !env.passes {
        return Failed(NetworkError);
      }
      var user := NewUser(env, email, Split(email, '@')[0], "email");
      SetAuthenticatedUser(user, env);
      return DoneUser(user);
    }

    method SignUpWithEmail(email: string, password: string, name: string, env: Env) returns (reply: Reply)
      requires Valid()
      modifies this
      ensures Valid()
      ensures Outcome(Snapshot(), reply) == Session.SignUpWithEmail(old(Snapshot()), email, password, name, env)
    {
      if !ValidateEmail(email) {
        return Failed(InvalidEmail);
      }
      if |password| < 6 {
        return Failed(ShortPassword);
      }
      if |Trim(name)| < 2 {
        return Failed(MissingName);
      }
      if Truthy(store, AccountKey(email)) {
        return Failed(AccountExists);
      }
      if !env.passes {
        return Failed(NetworkError);
      }
      var user := NewUser(env, email, Trim(name), "email");
      store := store[AccountKey(email) := UserJson(user)];
      SetAuthenticatedUser(user, env);
      return DoneUser(user);
    }

    method SignInWithProvider(provider: string, env: Env) returns (reply: Reply)
      requires Valid()
      modifies this
      ensures Valid()
      ensures Outcome(Snapshot(), reply) == Session.SignInWithProvider(old(Snapshot()), provider, env)
    {
      if provider !in authProviders {
        return Failed(Unsupported(provider));
      }
      if !env.passes {
        return Failed(Cancelled(provider));
      }
      var user := NewUser(env, "user@" + provider + ".com", provider + " User", provider);
      SetAuthenticatedUser(user, env);
      return DoneUser(user);
    }

    method SignOut() returns (reply: Reply)
      requires Valid()
      modifies this
      ensures Valid()
      ensures Outcome(Snapshot(), reply) == Session.SignOut(old(Snapshot()))
    {
      ClearAuthData();
      return Done;
    }

    method UpdateProfile(updates: ProfileUpdates, env: Env) returns (reply: Reply)
      requires Valid()
      modifies this
      ensures Valid()
      ensures Outcome(Snapshot(), reply) == Session.UpdateProfile(old(Snapshot()), updates, env)
    {
      if !isAuthenticated {
        return Thrown(ProfileNeedsSignIn);
      }
      if updates.email.Some? && updates.email.value != "" && !ValidateEmail(updates.email.value) {
        return Failed(InvalidEmail);
      }
      if updates.name.Some? && updates.name.value != "" && |Trim(updates.name.value)| < 2 {
        return Failed(ShortName);
      }
      if !env.passes {
        return Failed(NetworkError);
      }
      currentUser := Some(Merge(currentUser.value, updates));
      SaveUserData();
      return DoneUser(currentUser.value);
    }

    method UpdatePreferences(updates: PreferenceUpdates) returns (reply: Reply)
      requires Valid()
      modifies this
      ensures Valid()
      ensures Outcome(Snapshot(), reply) == Session.UpdatePreferences(old(Snapshot()), updates)
    {
      if !isAuthenticated {
        return Thrown(PreferencesNeedSignIn);
      }
      var merged := MergePreferences(currentUser.value.preferences, updates);
      currentUser := Some(currentUser.value.(preferences := merged));
      SaveUserData();
      return DonePreferences(merged);
    }

    /** `resetPassword` changes nothing. */
    method ResetPassword(email: string, env: Env) returns (reply: Reply)
      ensures reply == Session.ResetPassword(email, env)
    {
      if !ValidateEmail(email) {
        return Failed(InvalidEmail);
      }
      if !env.passes {
        return Failed(NetworkError);
      }
      return DoneMessage(ResetSent);
    }

    method DeleteAccount() returns (reply: Reply)
      requires Valid()
      modifies this
      ensures Valid()
      ensures Outcome(Snapshot(), reply) == Session.DeleteAccount(old(Snapshot()))
    {
      if !isAuthenticated {
        return Thrown(DeleteNeedsSignIn);
      }
      ClearAuthData();
      ClearUserGeneratedData();
      return Done;
    }

    method SyncUserData(env: Env) returns (reply: Reply)
      requires Valid()
      modifies this
      ensures Valid()
      ensures Outcome(Snapshot(), reply) == Session.SyncUserData(old(Snapshot()), env)
    {
      if !isAuthenticated {
        return NoReply;
      }
      var wishlist := ReadList(store, WishlistKey);
      var owned := ReadList(store, OwnedKey);
      if wishlist.None? || owned.None? {
        return ParseFailed;
      }
      if !env.passes {
        return Failed(NetworkError);
      }
      currentUser := Some(currentUser.value.(wishlist := wishlist));
      currentUser := Some(currentUser.value.(ownedProducts := owned));
      SaveUserData();
      return Done;
    }

    /** `exportUserData` only reads. */
    method ExportUserData(env: Env) returns (reply: Reply)
      requires Valid()
      ensures Outcome(Snapshot(), reply) == Session.ExportUserData(Snapshot(), env)
    {
      if !isAuthenticated {
        return Thrown(ExportNeedsSignIn);
      }
      var wishlist := ReadList(store, WishlistKey);
      var owned := ReadList(store, OwnedKey);
      if wishlist.None? || owned.None? {
        return ParseFailed;
      }
      return Exported(currentUser.value, wishlist.value, owned.value, env.now);
    }

    method OnGuestAction(action: string) returns (prompt: bool)
      requires Valid()
      modifies this
      ensures Valid()
      ensures GuestStep(Snapshot(), prompt) == Session.OnGuestAction(old(Snapshot()), action)
    {
      if isAuthenticated {
        return false;
      }
      if action !in PromptingActions {
        return false;
      }
      var count := Increment(StoredCount(store));
      store := store[GuestKey := Text(NumToString(count))];
      prompt := PromptsAt(count);
    }
  }
}
