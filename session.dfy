/**
 * The mock session of `AuthManager` as a state machine over values: the two
 * fields `currentUser` and `isAuthenticated`, and the browser's key-value
 * store (localStorage), which holds the signed-in user (`beautyFindUser`),
 * a fake token (`beautyFindToken`), one record per signed-up account
 * (`beautyFindUser_<email>`), the wishlist and owned lists, and the guest
 * interaction counter.
 *
 * Every operation is a function from the state before to the state after and
 * the value the call resolves to. What the source takes from the outside world
 * on each call (whether the simulated network round trip or OAuth pop-up
 * succeeds, the random tails of the generated user id and token, the current
 * time) is the `Env` argument. The class in module `Auth` performs the same
 * steps on fields and is proved to end in the state these functions give.
 */
module Session {
  import opened Wrappers
  import opened Text

  // ------------------------------------------------------------ the store

  const UserKey := "beautyFindUser"
  const TokenKey := "beautyFindToken"
  const AccountPrefix := "beautyFindUser_"
  const WishlistKey := "beautyFindWishlist"
  const OwnedKey := "beautyFindOwned"
  const GuestKey := "guestInteractions"

  /** The key of the record kept for each signed-up account. */
  function AccountKey(email: string): string {
    AccountPrefix + email
  }

  const UserIdPrefix := "user_"
  const TokenPrefix := "fake_jwt_token_"

  /** The providers `signInWithProvider` accepts. */
  const AuthProviders: seq<string> := ["email", "google", "facebook"]

  /** The guest actions that advance the sign-up prompt counter. */
  const PromptingActions: seq<string> := ["add_to_wishlist", "mark_as_owned", "set_price_alert"]

  datatype Preferences = Preferences(
    emailAlerts: bool,
    weeklyRoundup: bool,
    categories: seq<string>,
    brands: seq<string>)

  /** The preferences every new account starts with. */
  const DefaultPreferences := Preferences(true, false, [], [])

  /** A user record; `wishlist` and `ownedProducts` appear once a sync has run. */
  datatype User = User(
    id: string,
    email: string,
    name: string,
    provider: string,
    createdAt: string,
    preferences: Preferences,
    wishlist: Option<seq<string>>,
    ownedProducts: Option<seq<string>>)

  /**
   * A stored string, by what `JSON.parse` makes of it: a user record, a list
   * of product ids, or any other text. Other text is taken as failing to
   * parse; JSON that is neither a user nor an id list is counted here too.
   */
  datatype Value = UserJson(user: User) | IdsJson(ids: seq<string>) | Text(text: string)

  type Store = map<string, Value>

  /** `localStorage.getItem(key)` gives a truthy string: present and not empty. */
  predicate Truthy(store: Store, key: string) {
    key in store && store[key] != Text("")
  }

  /** `a` and `b` hold the same entries at every key outside `keys`. */
  ghost predicate SameExcept(a: Store, b: Store, keys: set<string>) {
    forall k :: k !in keys ==> (k in a <==> k in b) && (k in a ==> a[k] == b[k])
  }

  // ------------------------------------------------------------ the state

  /** What one call takes from the outside world. */
  datatype Env = Env(passes: bool, idTail: string, tokenTail: string, now: string)

  datatype State = State(currentUser: Option<User>, isAuthenticated: bool, store: Store)

  /** The object as the constructor leaves it before restoring a session. */
  function Fresh(store: Store): State {
    State(None, false, store)
  }

  /** The object flags itself authenticated exactly when it holds a user. */
  predicate Consistent(s: State) {
    s.isAuthenticated <==> s.currentUser.Some?
  }

  predicate Anonymous(s: State) {
    s.currentUser.None? && !s.isAuthenticated
  }

  /** Signed in as `u`, with `u` persisted and a token stored. */
  predicate SignedIn(s: State, u: User) {
    && s.currentUser == Some(u)
    && s.isAuthenticated
    && UserKey in s.store && s.store[UserKey] == UserJson(u)
    && Truthy(s.store, TokenKey)
  }

  /** What a call resolves to (or throws). */
  datatype Reply =
    | Done                                   // { success: true }
    | DoneUser(user: User)                   // { success: true, user }
    | DonePreferences(preferences: Preferences)
    | DoneMessage(message: string)
    | Exported(profile: User, wishlist: seq<string>, ownedProducts: seq<string>, exportDate: string)
    | Failed(error: string)                  // { success: false, error }
    | ParseFailed                            // { success: false, error } with JSON.parse's message
    | Thrown(error: string)                  // the promise rejects
    | NoReply                                // resolves to undefined

  datatype Outcome = Outcome(state: State, reply: Reply)

  const InvalidEmail := "Please enter a valid email address"
  const ShortPassword := "Password must be at least 6 characters"
  const MissingName := "Please enter your name"
  const AccountExists := "An account with this email already exists"
  const NetworkError := "Network error. Please try again."
  const ShortName := "Name must be at least 2 characters"
  const ProfileNeedsSignIn := "Must be signed in to update profile"
  const PreferencesNeedSignIn := "Must be signed in to update preferences"
  const DeleteNeedsSignIn := "Must be signed in to delete account"
  const ExportNeedsSignIn := "Must be signed in to export data"
  const ResetSent := "Password reset email sent. Please check your inbox."

  function Unsupported(provider: string): string {
    provider + " authentication not supported"
  }

  function Cancelled(provider: string): string {
    provider + " sign-in was cancelled"
  }

  // ------------------------------------------------------ email validation

  /** A part of `^[^\s@]+@[^\s@]+\.[^\s@]+$`: one or more characters, no whitespace and no `@`. */
  predicate EmailPart(x: string) {
    x != [] && NoSpace(x) && '@' !in x
  }

  function EmailOf(a: string, b: string, c: string): string {
    a + "@" + b + "." + c
  }

  /** The strings the pattern `^[^\s@]+@[^\s@]+\.[^\s@]+$` matches. */
  ghost predicate MatchesEmailPattern(s: string) {
    exists a, b, c :: EmailPart(a) && EmailPart(b) && EmailPart(c) && EmailOf(a, b, c) == s
  }

  /** What follows the `@`: no further `@`, and a `.` with text on both sides. */
  predicate DomainShaped(d: string) {
    '@' !in d && |d| >= 3 && '.' in d[1..|d| - 1]
  }

  /** `validateEmail`, computed by scanning for the `@`. */
  predicate ValidateEmail(s: string) {
    var i := IndexOf(s, '@');
    i > 0 && NoSpace(s) && DomainShaped(s[i + 1..])
  }

  /** The first `c` in `s` is at `k` when `s[k]` is `c` and nothing before is. */
  lemma IndexOfAt(s: string, c: char, k: int)
    requires 0 <= k < |s| && s[k] == c && c !in s[..k]
    ensures IndexOf(s, c) == k
  {
    assert s[k] == c;
  }

  /** A non-empty slice of a whitespace-free string that holds no `@` is a pattern part. */
  lemma SliceIsPart(s: string, lo: int, hi: int)
    requires NoSpace(s) && 0 <= lo < hi <= |s| && '@' !in s[lo..hi]
    ensures EmailPart(s[lo..hi])
  {
    NoSpaceSlice(s, lo, hi);
  }

  lemma ValidEmailSplits(s: string)
    requires ValidateEmail(s)
    ensures MatchesEmailPattern(s)
  {
    var i := IndexOf(s, '@');
    assert DomainShaped(s[i + 1..]);
    var e := DomainDot(s, i);
    SuffixSliceLacks(s, i, i + 1, e, '@');
    SuffixSliceLacks(s, i, e + 1, |s|, '@');
    SliceIsPart(s, 0, i);
    SliceIsPart(s, i + 1, e);
    SliceIsPart(s, e + 1, |s|);
    CutTwice(s, i, e);
    assert [s[i]] == "@" && [s[e]] == ".";
  }

  /** The `.` a well-shaped domain after position `i` holds, with text on both sides. */
  lemma DomainDot(s: string, i: int) returns (j: int)
    requires 0 <= i < |s| && DomainShaped(s[i + 1..])
    ensures i + 1 < j < |s| - 1 && s[j] == '.'
  {
    var mid := s[i + 1..][1..|s| - i - 2];
    var k := IndexOf(mid, '.');
    j := i + 2 + k;
    assert s[j] == mid[k];
  }

  /** A slice of what follows `i` lacks whatever that suffix lacks. */
  lemma SuffixSliceLacks<T>(s: seq<T>, i: int, lo: int, hi: int, x: T)
    requires 0 <= i < |s| && i + 1 <= lo <= hi <= |s| && x !in s[i + 1..]
    ensures x !in s[lo..hi]
  {
    forall k | 0 <= k < hi - lo ensures s[lo..hi][k] != x {
      assert s[lo..hi][k] == s[i + 1..][lo + k - i - 1];
    }
  }

  /** Cutting a sequence at two positions and gluing the pieces back. */
  lemma CutTwice<T>(s: seq<T>, i: int, e: int)
    requires 0 <= i < e < |s|
    ensures s == s[0..i] + [s[i]] + s[i + 1..e] + [s[e]] + s[e + 1..|s|]
  {
  }

  lemma PatternValidates(a: string, b: string, c: string)
    requires EmailPart(a) && EmailPart(b) && EmailPart(c)
    ensures ValidateEmail(EmailOf(a, b, c))
  {
    var s := EmailOf(a, b, c);
    assert s[..|a|] == a;
    assert s[|a|] == '@';
    IndexOfAt(s, '@', |a|);
    var d := s[|a| + 1..];
    assert d == b + "." + c;
    assert d[|b|] == '.';
    assert d[1..|d| - 1][|b| - 1] == '.';
    assert '@' !in d;
    forall k | 0 <= k < |s| ensures !IsSpace(s[k]) {
      if k < |a| {
        assert s[k] == a[k];
      } else if k == |a| {
      } else if k < |a| + 1 + |b| {
        assert s[k] == b[k - |a| - 1];
      } else if k == |a| + 1 + |b| {
      } else {
        assert s[k] == c[k - |a| - 2 - |b|];
      }
    }
  }

  /** `validateEmail` accepts exactly the strings the pattern `^[^\s@]+@[^\s@]+\.[^\s@]+$` matches. */
  lemma ValidateEmailIsPattern(s: string)
    ensures ValidateEmail(s) <==> MatchesEmailPattern(s)
  {
    if ValidateEmail(s) {
      ValidEmailSplits(s);
    }
    if MatchesEmailPattern(s) {
      var a, b, c :| EmailPart(a) && EmailPart(b) && EmailPart(c) && EmailOf(a, b, c) == s;
      PatternValidates(a, b, c);
    }
  }

  /** A string with no `@` before and after one `@` holds exactly one. */
  lemma OneAt(a: string, d: string)
    requires '@' !in a && '@' !in d
    ensures multiset(a + ['@'] + d)['@'] == 1
  {
    assert multiset(a + ['@'] + d) == multiset(a) + multiset{'@'} + multiset(d);
  }

  lemma ValidEmailOneAt(s: string)
    requires ValidateEmail(s)
    ensures multiset(s)['@'] == 1
  {
    var i := IndexOf(s, '@');
    var d := s[i + 1..];
    assert s == s[..i] + [s[i]] + d;
    OneAt(s[..i], d);
  }

  lemma ValidEmailDot(s: string)
    requires ValidateEmail(s)
    ensures exists j :: IndexOf(s, '@') + 1 < j < |s| - 1 && s[j] == '.'
  {
    var i := IndexOf(s, '@');
    assert DomainShaped(s[i + 1..]);
    var j := DomainDot(s, i);
  }

  /**
   * An accepted address has no whitespace and exactly one `@`, with a
   * non-empty local part before it and a domain that holds a `.` with text on
   * both sides.
   */
  lemma ValidEmailShape(s: string)
    requires ValidateEmail(s)
    ensures NoSpace(s)
    ensures multiset(s)['@'] == 1
    ensures IndexOf(s, '@') > 0
    ensures exists j :: IndexOf(s, '@') + 1 < j < |s| - 1 && s[j] == '.'
  {
    ValidEmailOneAt(s);
    ValidEmailDot(s);
  }

  // ------------------------------------------------------- store helpers

  /** `saveUserData`: persist the current user, if there is one. */
  function SaveUserData(s: State): (r: State)
    ensures s.currentUser.Some? ==> r.store == s.store[UserKey := UserJson(s.currentUser.value)]
    ensures s.currentUser.None? ==> r == s
    ensures r.currentUser == s.currentUser && r.isAuthenticated == s.isAuthenticated
  {
    match s.currentUser
    case Some(u) => s.(store := s.store[UserKey := UserJson(u)])
    case None => s
  }

  /** `saveAuthToken`: store a fresh fake token. */
  function SaveAuthToken(s: State, env: Env): (r: State)
    ensures Truthy(r.store, TokenKey)
    ensures SameExcept(r.store, s.store, {TokenKey})
    ensures r.currentUser == s.currentUser && r.isAuthenticated == s.isAuthenticated
  {
    s.(store := s.store[TokenKey := Text(TokenPrefix + env.tokenTail)])
  }

  /** `clearAuthData`: anonymous, with both session keys removed and nothing else touched. */
  function ClearAuthData(s: State): (r: State)
    ensures Anonymous(r) && Consistent(r)
    ensures UserKey !in r.store && TokenKey !in r.store
    ensures SameExcept(r.store, s.store, {UserKey, TokenKey})
  {
    State(None, false, s.store - {UserKey, TokenKey})
  }

  /** `clearUserGeneratedData`: the wishlist and owned lists are removed and nothing else. */
  function ClearUserGeneratedData(s: State): (r: State)
    ensures WishlistKey !in r.store && OwnedKey !in r.store
    ensures SameExcept(r.store, s.store, {WishlistKey, OwnedKey})
    ensures r.currentUser == s.currentUser && r.isAuthenticated == s.isAuthenticated
  {
    s.(store := s.store - {WishlistKey, OwnedKey})
  }

  /** `setAuthenticatedUser` (without the deferred sync it starts). */
  function SetAuthenticatedUser(s: State, u: User, env: Env): (r: State)
    ensures SignedIn(r, u) && Consistent(r)
    ensures SameExcept(r.store, s.store, {UserKey, TokenKey})
  {
    SaveAuthToken(SaveUserData(s.(currentUser := Some(u), isAuthenticated := true)), env)
  }

  /** The record built for a new sign-in. */
  function NewUser(env: Env, email: string, name: string, provider: string): User {
    User(UserIdPrefix + env.idTail, email, name, provider, env.now, DefaultPreferences, None, None)
  }

  // ------------------------------------------------------ session restore

  /**
   * `checkExistingSession`: restore the saved user when both session keys
   * hold something; drop both keys if the saved value is not a serialised user.
   */
  function CheckExistingSession(s: State): (r: State)
    ensures Consistent(s) ==> Consistent(r)
    ensures !(Truthy(s.store, UserKey) && Truthy(s.store, TokenKey)) ==> r == s
    ensures Truthy(s.store, UserKey) && Truthy(s.store, TokenKey) && s.store[UserKey].UserJson? ==>
              SignedIn(r, s.store[UserKey].user) && r.store == s.store
    ensures Truthy(s.store, UserKey) && Truthy(s.store, TokenKey) && !s.store[UserKey].UserJson? ==>
              Anonymous(r) && r.store == s.store - {UserKey, TokenKey}
  {
    if Truthy(s.store, UserKey) && Truthy(s.store, TokenKey) then
      match s.store[UserKey]
      case UserJson(u) => s.(currentUser := Some(u), isAuthenticated := true)
      case _ => ClearAuthData(s)
    else s
  }

  /** Start-up ends authenticated exactly when both keys are set and the saved user parses. */
  lemma RestoreAuthenticatesIff(store: Store)
    ensures CheckExistingSession(Fresh(store)).isAuthenticated <==>
              Truthy(store, UserKey) && Truthy(store, TokenKey) && store[UserKey].UserJson?
  {
  }

  /** Reloading the page in a signed-in state restores exactly that state. */
  lemma RestoreSignedIn(s: State, u: User)
    requires SignedIn(s, u)
    ensures CheckExistingSession(Fresh(s.store)) == s
  {
    assert s.store[UserKey] != Text("");
  }

  // -------------------------------------------------------------- sign-in

  /** `signInWithEmail`. */
  function SignInWithEmail(s: State, email: string, password: string, env: Env): (r: Outcome)
    ensures r.reply.DoneUser? <==> ValidateEmail(email) && |password| >= 6 && env.passes
    ensures !ValidateEmail(email) ==> r == Outcome(s, Failed(InvalidEmail))
    ensures ValidateEmail(email) && |password| < 6 ==> r == Outcome(s, Failed(ShortPassword))
    ensures ValidateEmail(email) && |password| >= 6 && !env.passes ==> r == Outcome(s, Failed(NetworkError))
    ensures r.reply.DoneUser? ==>
              && SignedIn(r.state, r.reply.user) && Consistent(r.state)
              && r.reply.user.email == email
              && r.reply.user.name == email[..IndexOf(email, '@')] && r.reply.user.name != []
              && r.reply.user.provider == "email"
              && r.reply.user.preferences == DefaultPreferences
              && SameExcept(r.state.store, s.store, {UserKey, TokenKey})
  {
    if !ValidateEmail(email) then Outcome(s, Failed(InvalidEmail))
    else if |password| < 6 then Outcome(s, Failed(ShortPassword))
    else if !env.passes then Outcome(s, Failed(NetworkError))
    else
      var u := NewUser(env, email, Split(email, '@')[0], "email");
      Outcome(SetAuthenticatedUser(s, u, env), DoneUser(u))
  }

  /** `signUpWithEmail`. */
  function SignUpWithEmail(s: State, email: string, password: string, name: string, env: Env): (r: Outcome)
    ensures r.reply.DoneUser? <==>
              ValidateEmail(email) && |password| >= 6 && |Trim(name)| >= 2
              && !Truthy(s.store, AccountKey(email)) && env.passes
    ensures !r.reply.DoneUser? ==> r.state == s && r.reply.Failed?
    ensures !ValidateEmail(email) ==> r.reply == Failed(InvalidEmail)
    ensures ValidateEmail(email) && |password| < 6 ==> r.reply == Failed(ShortPassword)
    ensures ValidateEmail(email) && |password| >= 6 && |Trim(name)| < 2 ==> r.reply == Failed(MissingName)
    ensures ValidateEmail(email) && |password| >= 6 && |Trim(name)| >= 2 && Truthy(s.store, AccountKey(email)) ==>
              r.reply == Failed(AccountExists)
    ensures ValidateEmail(email) && |password| >= 6 && |Trim(name)| >= 2 && !Truthy(s.store, AccountKey(email)) && !env.passes ==>
              r.reply == Failed(NetworkError)
    ensures r.reply.DoneUser? ==>
              && SignedIn(r.state, r.reply.user) && Consistent(r.state)
              && r.reply.user.email == email && r.reply.user.name == Trim(name)
              && r.reply.user.provider == "email"
              && AccountKey(email) in r.state.store && r.state.store[AccountKey(email)] == UserJson(r.reply.user)
              && SameExcept(r.state.store, s.store, {UserKey, TokenKey, AccountKey(email)})
  {
    if !ValidateEmail(email) then Outcome(s, Failed(InvalidEmail))
    else if |password| < 6 then Outcome(s, Failed(ShortPassword))
    else if |Trim(name)| < 2 then Outcome(s, Failed(MissingName))
    else if Truthy(s.store, AccountKey(email)) then Outcome(s, Failed(AccountExists))
    else if !env.passes then Outcome(s, Failed(NetworkError))
    else
      var u := NewUser(env, email, Trim(name), "email");
      AccountKeyIsNotSessionKey(email);
      var saved := s.(store := s.store[AccountKey(email) := UserJson(u)]);
      Outcome(SetAuthenticatedUser(saved, u, env), DoneUser(u))
  }

  /** An account record never sits under either session key. */
  lemma AccountKeyIsNotSessionKey(email: string)
    ensures AccountKey(email) != UserKey && AccountKey(email) != TokenKey
    ensures AccountKey(email) != WishlistKey && AccountKey(email) != OwnedKey
  {
    var k := AccountKey(email);
    assert k[..15] == AccountPrefix;
    assert k[10] == 'U' && k[14] == '_';
    assert |UserKey| == 14;
    assert TokenKey[10] == 'T';
    assert WishlistKey[10] == 'W' && OwnedKey[10] == 'O';
  }

  /** `signInWithProvider`. */
  function SignInWithProvider(s: State, provider: string, env: Env): (r: Outcome)
    ensures r.reply.DoneUser? <==> provider in AuthProviders && env.passes
    ensures provider !in AuthProviders ==> r == Outcome(s, Failed(Unsupported(provider)))
    ensures provider in AuthProviders && !env.passes ==> r == Outcome(s, Failed(Cancelled(provider)))
    ensures r.reply.DoneUser? ==>
              && SignedIn(r.state, r.reply.user) && Consistent(r.state)
              && r.reply.user.email == "user@" + provider + ".com"
              && r.reply.user.name == provider + " User"
              && r.reply.user.provider == provider
              && SameExcept(r.state.store, s.store, {UserKey, TokenKey})
  {
    if provider !in AuthProviders then Outcome(s, Failed(Unsupported(provider)))
    else if !env.passes then Outcome(s, Failed(Cancelled(provider)))
    else
      var u := NewUser(env, "user@" + provider + ".com", provider + " User", provider);
      Outcome(SetAuthenticatedUser(s, u, env), DoneUser(u))
  }

  // ------------------------------------------------------------- sign-out

  /** `signOut`. */
  function SignOut(s: State): (r: Outcome)
    ensures r.reply == Done
    ensures Anonymous(r.state) && UserKey !in r.state.store && TokenKey !in r.state.store
    ensures SameExcept(r.state.store, s.store, {UserKey, TokenKey})
  {
    Outcome(ClearAuthData(s), Done)
  }

  /** Signing out twice leaves the state the first sign-out left. */
  lemma SignOutIdempotent(s: State)
    ensures SignOut(SignOut(s).state) == SignOut(s)
  {
    var once := SignOut(s).state;
    assert once.store - {UserKey, TokenKey} == once.store;
  }

  /** After signing out a page reload stays anonymous and changes nothing. */
  lemma RestoreAfterSignOut(s: State)
    ensures CheckExistingSession(Fresh(SignOut(s).state.store)) == SignOut(s).state
  {
  }

  /** Removing the session keys forgets any entries just written under them. */
  lemma ClearForgetsSession(store: Store, user: Value, token: Value)
    ensures store[UserKey := user][TokenKey := token] - {UserKey, TokenKey} == store - {UserKey, TokenKey}
  {
  }

  /** A successful email sign-in followed by sign-out leaves no trace: the same as signing out at once. */
  lemma SignInThenSignOut(s: State, email: string, password: string, env: Env)
    requires SignInWithEmail(s, email, password, env).reply.DoneUser?
    ensures SignOut(SignInWithEmail(s, email, password, env).state) == SignOut(s)
  {
    var u := SignInWithEmail(s, email, password, env).reply.user;
    ClearForgetsSession(s.store, UserJson(u), Text(TokenPrefix + env.tokenTail));
  }

  /** The same for a provider sign-in. */
  lemma ProviderSignInThenSignOut(s: State, provider: string, env: Env)
    requires SignInWithProvider(s, provider, env).reply.DoneUser?
    ensures SignOut(SignInWithProvider(s, provider, env).state) == SignOut(s)
  {
    var u := SignInWithProvider(s, provider, env).reply.user;
    ClearForgetsSession(s.store, UserJson(u), Text(TokenPrefix + env.tokenTail));
  }

  /** After a sign-up and a sign-out only the account record remains. */
  lemma SignUpThenSignOut(s: State, email: string, password: string, name: string, env: Env)
    requires SignUpWithEmail(s, email, password, name, env).reply.DoneUser?
    ensures var r := SignUpWithEmail(s, email, password, name, env);
            SignOut(r.state).state == SignOut(s).state.(store := SignOut(s).state.store[AccountKey(email) := UserJson(r.reply.user)])
  {
    var u := SignUpWithEmail(s, email, password, name, env).reply.user;
    AccountKeyIsNotSessionKey(email);
    RecordSurvivesClear(s.store, AccountKey(email), UserJson(u), UserKey, UserJson(u), TokenKey, Text(TokenPrefix + env.tokenTail));
  }

  /** Removing two keys after three writes keeps the write under a third key. */
  lemma RecordSurvivesClear<K, V>(m: map<K, V>, k: K, v: V, a: K, x: V, b: K, y: V)
    requires k != a && k != b
    ensures m[k := v][a := x][b := y] - {a, b} == (m - {a, b})[k := v]
  {
  }

  /** Every successful sign-in survives a page reload. */
  lemma SignInSurvivesReload(s: State, email: string, password: string, env: Env)
    requires SignInWithEmail(s, email, password, env).reply.DoneUser?
    ensures var r := SignInWithEmail(s, email, password, env).state;
            CheckExistingSession(Fresh(r.store)) == r
  {
    var r := SignInWithEmail(s, email, password, env);
    RestoreSignedIn(r.state, r.reply.user);
  }

  // ------------------------------------------------------- profile updates

  /** The keys an `updateProfile` call may carry (`email`, `name`); `None` is an absent key. */
  datatype ProfileUpdates = ProfileUpdates(email: Option<string>, name: Option<string>)

  /** `{ ...user, ...updates }`. */
  function Merge(u: User, updates: ProfileUpdates): User {
    u.(email := if updates.email.Some? then updates.email.value else u.email,
       name := if updates.name.Some? then updates.name.value else u.name)
  }

  /** The merge overwrites exactly the keys present in the updates and keeps every other field. */
  lemma MergeOverwritesOnlyGiven(u: User, updates: ProfileUpdates)
    ensures Merge(u, updates).(email := u.email, name := u.name) == u
    ensures updates.email.Some? ==> Merge(u, updates).email == updates.email.value
    ensures updates.email.None? ==> Merge(u, updates).email == u.email
    ensures updates.name.Some? ==> Merge(u, updates).name == updates.name.value
    ensures updates.name.None? ==> Merge(u, updates).name == u.name
    ensures Merge(u, ProfileUpdates(None, None)) == u
  {
  }

  /** A given, non-empty value that `validateEmail` rejects. */
  predicate BadEmailUpdate(updates: ProfileUpdates) {
    updates.email.Some? && updates.email.value != "" && !ValidateEmail(updates.email.value)
  }

  /** A given, non-empty name whose trimmed length is under 2. */
  predicate BadNameUpdate(updates: ProfileUpdates) {
    updates.name.Some? && updates.name.value != "" && |Trim(updates.name.value)| < 2
  }

  /** `updateProfile`. */
  function UpdateProfile(s: State, updates: ProfileUpdates, env: Env): (r: Outcome)
    requires Consistent(s)
    ensures Consistent(r.state)
    ensures !s.isAuthenticated ==> r == Outcome(s, Thrown(ProfileNeedsSignIn))
    ensures r.reply.DoneUser? <==> s.isAuthenticated && !BadEmailUpdate(updates) && !BadNameUpdate(updates) && env.passes
    ensures !r.reply.DoneUser? ==> r.state == s
    ensures s.isAuthenticated && BadEmailUpdate(updates) ==> r.reply == Failed(InvalidEmail)
    ensures s.isAuthenticated && !BadEmailUpdate(updates) && BadNameUpdate(updates) ==> r.reply == Failed(ShortName)
    ensures s.isAuthenticated && !BadEmailUpdate(updates) && !BadNameUpdate(updates) && !env.passes ==>
              r.reply == Failed(NetworkError)
    ensures r.reply.DoneUser? ==>
              && r.reply.user == Merge(s.currentUser.value, updates)
              && SignedIn(r.state, r.reply.user) == Truthy(s.store, TokenKey)
              && r.state.currentUser == Some(r.reply.user) && r.state.isAuthenticated
              && r.state.store == s.store[UserKey := UserJson(r.reply.user)]
  {
    if !s.isAuthenticated then Outcome(s, Thrown(ProfileNeedsSignIn))
    else if BadEmailUpdate(updates) then Outcome(s, Failed(InvalidEmail))
    else if BadNameUpdate(updates) then Outcome(s, Failed(ShortName))
    else if !env.passes then Outcome(s, Failed(NetworkError))
    else
      var u := Merge(s.currentUser.value, updates);
      Outcome(SaveUserData(s.(currentUser := Some(u))), DoneUser(u))
  }

  /** The keys an `updatePreferences` call may carry; `None` is an absent key. */
  datatype PreferenceUpdates = PreferenceUpdates(
    emailAlerts: Option<bool>,
    weeklyRoundup: Option<bool>,
    categories: Option<seq<string>>,
    brands: Option<seq<string>>)

  /** `{ ...preferences, ...updates }`. */
  function MergePreferences(p: Preferences, updates: PreferenceUpdates): Preferences {
    Preferences(
      if updates.emailAlerts.Some? then updates.emailAlerts.value else p.emailAlerts,
      if updates.weeklyRoundup.Some? then updates.weeklyRoundup.value else p.weeklyRoundup,
      if updates.categories.Some? then updates.categories.value else p.categories,
      if updates.brands.Some? then updates.brands.value else p.brands)
  }

  /**
   * A given key replaces its field and an absent key keeps it; an empty
   * update changes nothing; merging the same update twice is merging it once.
   */
  lemma MergePreferencesLaws(p: Preferences, updates: PreferenceUpdates)
    ensures MergePreferences(p, updates).emailAlerts == if updates.emailAlerts.Some? then updates.emailAlerts.value else p.emailAlerts
    ensures MergePreferences(p, updates).weeklyRoundup == if updates.weeklyRoundup.Some? then updates.weeklyRoundup.value else p.weeklyRoundup
    ensures MergePreferences(p, updates).categories == if updates.categories.Some? then updates.categories.value else p.categories
    ensures MergePreferences(p, updates).brands == if updates.brands.Some? then updates.brands.value else p.brands
    ensures MergePreferences(p, PreferenceUpdates(None, None, None, None)) == p
    ensures MergePreferences(MergePreferences(p, updates), updates) == MergePreferences(p, updates)
  {
  }

  /** `updatePreferences`. */
  function UpdatePreferences(s: State, updates: PreferenceUpdates): (r: Outcome)
    requires Consistent(s)
    ensures Consistent(r.state)
    ensures !s.isAuthenticated ==> r == Outcome(s, Thrown(PreferencesNeedSignIn))
    ensures s.isAuthenticated ==>
              && r.reply == DonePreferences(MergePreferences(s.currentUser.value.preferences, updates))
              && r.state.currentUser == Some(s.currentUser.value.(preferences := r.reply.preferences))
              && r.state.store == s.store[UserKey := UserJson(r.state.currentUser.value)]
  {
    if !s.isAuthenticated then Outcome(s, Thrown(PreferencesNeedSignIn))
    else
      var u := s.currentUser.value;
      var p := MergePreferences(u.preferences, updates);
      Outcome(SaveUserData(s.(currentUser := Some(u.(preferences := p)))), DonePreferences(p))
  }

  // ------------------------------------------------------- account removal

  /** `deleteAccount`. */
  function DeleteAccount(s: State): (r: Outcome)
    ensures !s.isAuthenticated ==> r == Outcome(s, Thrown(DeleteNeedsSignIn))
    ensures s.isAuthenticated ==>
              && r.reply == Done && Anonymous(r.state)
              && UserKey !in r.state.store && TokenKey !in r.state.store
              && WishlistKey !in r.state.store && OwnedKey !in r.state.store
              && SameExcept(r.state.store, s.store, {UserKey, TokenKey, WishlistKey, OwnedKey})
  {
    if !s.isAuthenticated then Outcome(s, Thrown(DeleteNeedsSignIn))
    else Outcome(ClearUserGeneratedData(ClearAuthData(s)), Done)
  }

  /**
   * Deleting the account keeps its `beautyFindUser_<email>` record, so signing
   * up again with that address can never succeed.
   */
  lemma DeletedAccountBlocksSignUp(s: State, email: string, password: string, name: string, env: Env)
    requires s.isAuthenticated && Truthy(s.store, AccountKey(email))
    ensures var d := DeleteAccount(s).state;
            && Truthy(d.store, AccountKey(email))
            && !SignUpWithEmail(d, email, password, name, env).reply.DoneUser?
  {
    var d := DeleteAccount(s).state;
    var k := AccountKey(email);
    AccountKeyIsNotSessionKey(email);
    assert k !in {UserKey, TokenKey, WishlistKey, OwnedKey};
    assert Truthy(d.store, k);
  }

  /** Sign-up with otherwise valid input is refused whenever an account record is stored for the email. */
  lemma SignUpRefusesStoredAccount(s: State, email: string, password: string, name: string, env: Env)
    requires Truthy(s.store, AccountKey(email))
    requires ValidateEmail(email) && |password| >= 6 && |Trim(name)| >= 2
    ensures SignUpWithEmail(s, email, password, name, env) == Outcome(s, Failed(AccountExists))
  {
  }

  // ------------------------------------------------------------ list data

  /** `JSON.parse(localStorage.getItem(key) || '[]')` for a list of ids; `None` when it throws. */
  function ReadList(store: Store, key: string): (r: Option<seq<string>>)
    ensures !Truthy(store, key) ==> r == Some([])
    ensures Truthy(store, key) ==> (r.Some? <==> store[key].IdsJson?)
  {
    if !Truthy(store, key) then Some([])
    else match store[key]
      case IdsJson(ids) => Some(ids)
      case _ => None
  }

  /** `syncUserData`. */
  function SyncUserData(s: State, env: Env): (r: Outcome)
    requires Consistent(s)
    ensures Consistent(r.state)
    ensures !s.isAuthenticated ==> r == Outcome(s, NoReply)
    ensures r.reply.Done? <==>
              s.isAuthenticated && ReadList(s.store, WishlistKey).Some? && ReadList(s.store, OwnedKey).Some? && env.passes
    ensures !r.reply.Done? ==> r.state == s
    ensures r.reply.Done? ==>
              && r.state.currentUser.Some? && r.state.isAuthenticated
              && r.state.currentUser.value.wishlist == ReadList(s.store, WishlistKey)
              && r.state.currentUser.value.ownedProducts == ReadList(s.store, OwnedKey)
              && r.state.currentUser.value.(wishlist := None, ownedProducts := None) ==
                 s.currentUser.value.(wishlist := None, ownedProducts := None)
              && r.state.store == s.store[UserKey := UserJson(r.state.currentUser.value)]
  {
    if !s.isAuthenticated then Outcome(s, NoReply)
    else
      var wishlist := ReadList(s.store, WishlistKey);
      var owned := ReadList(s.store, OwnedKey);
      if wishlist.None? || owned.None? then Outcome(s, ParseFailed)
      else if !env.passes then Outcome(s, Failed(NetworkError))
      else
        var u := s.currentUser.value.(wishlist := wishlist, ownedProducts := owned);
        Outcome(SaveUserData(s.(currentUser := Some(u))), Done)
  }

  /** `exportUserData`: the document it offers for download; the state never changes. */
  function ExportUserData(s: State, env: Env): (r: Outcome)
    requires Consistent(s)
    ensures r.state == s
    ensures !s.isAuthenticated ==> r.reply == Thrown(ExportNeedsSignIn)
    ensures r.reply.Exported? <==>
              s.isAuthenticated && ReadList(s.store, WishlistKey).Some? && ReadList(s.store, OwnedKey).Some?
    ensures r.reply.Exported? ==>
              && Some(r.reply.profile) == s.currentUser
              && Some(r.reply.wishlist) == ReadList(s.store, WishlistKey)
              && Some(r.reply.ownedProducts) == ReadList(s.store, OwnedKey)
  {
    if !s.isAuthenticated then Outcome(s, Thrown(ExportNeedsSignIn))
    else
      var wishlist := ReadList(s.store, WishlistKey);
      var owned := ReadList(s.store, OwnedKey);
      if wishlist.None? || owned.None? then Outcome(s, ParseFailed)
      else Outcome(s, Exported(s.currentUser.value, wishlist.value, owned.value, env.now))
  }

  /** `resetPassword`: it touches no state. */
  function ResetPassword(email: string, env: Env): (r: Reply)
    ensures r == DoneMessage(ResetSent) <==> ValidateEmail(email) && env.passes
    ensures !ValidateEmail(email) ==> r == Failed(InvalidEmail)
    ensures ValidateEmail(email) && !env.passes ==> r == Failed(NetworkError)
  {
    if !ValidateEmail(email) then Failed(InvalidEmail)
    else if !env.passes then Failed(NetworkError)
    else DoneMessage(ResetSent)
  }

  /** When anonymous, every operation that needs a user throws or returns before changing anything. */
  lemma AnonymousGuards(s: State, profile: ProfileUpdates, prefs: PreferenceUpdates, env: Env)
    requires Anonymous(s)
    ensures UpdateProfile(s, profile, env) == Outcome(s, Thrown(ProfileNeedsSignIn))
    ensures UpdatePreferences(s, prefs) == Outcome(s, Thrown(PreferencesNeedSignIn))
    ensures DeleteAccount(s) == Outcome(s, Thrown(DeleteNeedsSignIn))
    ensures ExportUserData(s, env) == Outcome(s, Thrown(ExportNeedsSignIn))
    ensures SyncUserData(s, env) == Outcome(s, NoReply)
  {
  }

  // ------------------------------------------------------ guest counter

  /** `parseInt(localStorage.getItem('guestInteractions') || '0')`. */
  function StoredCount(store: Store): Num {
    if !Truthy(store, GuestKey) then Finite(0)
    else match store[GuestKey]
      case Text(t) => ParseInt(t)
      case _ => NaN   // a JSON object or array starts with a non-digit
  }

  /** `n + 1` on the numbers `parseInt` gives. */
  function Increment(n: Num): Num {
    match n
    case Finite(v) => Finite(v + 1)
    case NaN => NaN
    case PosInf => PosInf
  }

  /** The state after a guest action and whether it schedules the sign-up prompt. */
  datatype GuestStep = GuestStep(state: State, prompt: bool)

  /** `interactionCount >= 3 && interactionCount % 5 === 0`. */
  predicate PromptsAt(n: Num) {
    n.Finite? && n.v >= 3 && n.v % 5 == 0
  }

  /** `onGuestAction`. */
  function OnGuestAction(s: State, action: string): GuestStep {
    if s.isAuthenticated || action !in PromptingActions then GuestStep(s, false)
    else
      var n := Increment(StoredCount(s.store));
      GuestStep(s.(store := s.store[GuestKey := Text(NumToString(n))]), PromptsAt(n))
  }

  /**
   * A signed-in user or an action outside the list changes nothing; otherwise
   * only the counter changes, to one more than `parseInt` read, and the prompt
   * is scheduled exactly at the counts of at least 3 that are multiples of 5.
   */
  lemma GuestActionEffect(s: State, action: string)
    ensures s.isAuthenticated || action !in PromptingActions ==> OnGuestAction(s, action) == GuestStep(s, false)
    ensures !s.isAuthenticated && action in PromptingActions ==>
              var r := OnGuestAction(s, action);
              && r.state.currentUser == s.currentUser && r.state.isAuthenticated == s.isAuthenticated
              && SameExcept(r.state.store, s.store, {GuestKey})
              && GuestKey in r.state.store
              && r.state.store[GuestKey] == Text(NumToString(Increment(StoredCount(s.store))))
              && (r.prompt <==> PromptsAt(Increment(StoredCount(s.store))))
  {
  }

  /** `n` consecutive prompting guest actions. */
  function GuestRun(s: State, action: string, n: nat): State {
    if n == 0 then s else OnGuestAction(GuestRun(s, action, n - 1), action).state
  }

  /** A counter written as the digits of `n` reads back as `n`. */
  lemma StoredCountOfDigits(store: Store, n: nat)
    ensures StoredCount(store[GuestKey := Text(NatToString(n))]) == Finite(n)
  {
    var t := NatToString(n);
    ParseIntOfNatString(n);
    assert Text(t) != Text("") by { assert |t| >= 1; }
  }

  /** A prompting guest action on the counter `k` stores `next`, which is `k + 1`, and changes nothing else. */
  lemma GuestStepCounts(s: State, action: string, k: nat, next: nat)
    requires !s.isAuthenticated && action in PromptingActions
    requires StoredCount(s.store) == Finite(k) && next == k + 1
    ensures var r := OnGuestAction(s, action);
            && r.state.currentUser == s.currentUser && !r.state.isAuthenticated
            && r.state.store - {GuestKey} == s.store - {GuestKey}
            && r.state.store == s.store[GuestKey := Text(NatToString(next))]
            && StoredCount(r.state.store) == Finite(next)
            && (r.prompt <==> PromptsAt(Finite(next)))
  {
    assert Increment(StoredCount(s.store)) == Finite(next);
    StoredCountOfDigits(s.store, next);
  }

  /** One more prompting action after a run whose counter reads `n - 1`. */
  lemma GuestRunStep(s: State, action: string, n: nat)
    requires n > 0 && action in PromptingActions
    requires !GuestRun(s, action, n - 1).isAuthenticated
    requires StoredCount(GuestRun(s, action, n - 1).store) == Finite(n - 1)
    ensures var p := GuestRun(s, action, n - 1);
            var r := GuestRun(s, action, n);
            && r.currentUser == p.currentUser && !r.isAuthenticated
            && r.store - {GuestKey} == p.store - {GuestKey}
            && GuestKey in r.store && r.store[GuestKey] == Text(NatToString(n))
            && StoredCount(r.store) == Finite(n)
  {
    var p := GuestRun(s, action, n - 1);
    assert GuestRun(s, action, n) == OnGuestAction(p, action).state;
    GuestStepCounts(p, action, n - 1, n);
  }

  /**
   * Starting from no stored counter, a guest who performs `n` prompting
   * actions has the counter `n` stored, as its decimal digits, and nothing
   * else changed.
   */
  lemma {:induction false} GuestRunCounts(s: State, action: string, n: nat)
    requires !s.isAuthenticated && action in PromptingActions && GuestKey !in s.store
    ensures var r := GuestRun(s, action, n);
            && r.currentUser == s.currentUser && !r.isAuthenticated
            && r.store - {GuestKey} == s.store - {GuestKey}
            && StoredCount(r.store) == Finite(n)
            && (n > 0 ==> GuestKey in r.store && r.store[GuestKey] == Text(NatToString(n)))
  {
    if n > 0 {
      GuestRunCounts(s, action, n - 1);
      GuestRunStep(s, action, n);
    }
  }

  /** A prompting guest action on the counter `k` prompts exactly when `k + 1` meets the rule. */
  lemma GuestStepPrompts(s: State, action: string, k: nat)
    requires !s.isAuthenticated && action in PromptingActions
    requires StoredCount(s.store) == Finite(k)
    ensures OnGuestAction(s, action).prompt <==> PromptsAt(Finite(k + 1))
  {
    GuestStepCounts(s, action, k, k + 1);
  }

  /** The `n`-th prompting guest action (counting from a fresh counter) prompts exactly when `n` is a multiple of 5. */
  lemma GuestPromptsEveryFifth(s: State, action: string, n: nat)
    requires !s.isAuthenticated && action in PromptingActions && GuestKey !in s.store
    requires n >= 1
    ensures OnGuestAction(GuestRun(s, action, n - 1), action).prompt <==> n % 5 == 0
  {
    var k: nat := n - 1;
    GuestRunCounts(s, action, k);
    GuestStepPrompts(GuestRun(s, action, k), action, k);
    PromptsAtMultiplesOfFive(k + 1);
  }

  lemma PromptsAtMultiplesOfFive(n: nat)
    requires n >= 1
    ensures PromptsAt(Finite(n)) <==> n % 5 == 0
  {
  }

  lemma ParseNaNString()
    ensures ParseInt("NaN") == NaN
  {
    var t := "NaN";
    assert t[0] == 'N';
    ParseIntOfNonNumeric(t);
  }

  /**
   * A stored counter `parseInt` cannot read turns into the text `NaN`, which
   * it cannot read either: the counter never recovers and never prompts.
   */
  lemma GuestCounterStuckAtNaN(s: State, action: string)
    requires !s.isAuthenticated && action in PromptingActions
    requires StoredCount(s.store) == NaN
    ensures OnGuestAction(s, action).state.store[GuestKey] == Text("NaN")
    ensures StoredCount(OnGuestAction(s, action).state.store) == NaN
    ensures !OnGuestAction(s, action).prompt
  {
    ParseNaNString();
  }

  // ------------------------------------------------------- the invariant

  /** Every operation keeps the object's two fields in step. */
  lemma OperationsKeepConsistent(s: State, email: string, password: string, name: string, provider: string,
                                 action: string, env: Env)
    requires Consistent(s)
    ensures Consistent(CheckExistingSession(s))
    ensures Consistent(SignInWithEmail(s, email, password, env).state)
    ensures Consistent(SignUpWithEmail(s, email, password, name, env).state)
    ensures Consistent(SignInWithProvider(s, provider, env).state)
    ensures Consistent(SignOut(s).state)
    ensures Consistent(DeleteAccount(s).state)
    ensures Consistent(OnGuestAction(s, action).state)
  {
  }
}
