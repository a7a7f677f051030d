/** The mock authentication of `src/contexts/AuthContext.tsx`, used when no
    hosted backend is configured: a registry of users with passwords, a
    stored session and the signed-in user. Local storage becomes the
    `registry` and `session` fields; the timestamp in generated ids is a
    parameter. */
module MockAuth {
  import opened Wrappers
  import opened Text
  import opened Types
  import Seqs

  /** A registry entry: a `User` with its password. */
  datatype StoredUser = StoredUser(id: string, email: string, password: string,
                                   name: Option<string>, avatarUrl: Option<string>)

  type Registry = seq<StoredUser>

  /** The persisted registry, the persisted session's user, and the `user`
      state of the provider. */
  datatype AuthState = AuthState(registry: Registry, session: Option<User>, user: Option<User>)

  /** No two registered users share an email. */
  predicate EmailsDistinct(reg: Registry) {
    forall i, j :: 0 <= i < j < |reg| ==> reg[i].email != reg[j].email
  }

  predicate Registered(reg: Registry, email: string) {
    exists i :: 0 <= i < |reg| && reg[i].email == email
  }

  /** `mockUsers.getUserByEmail`: the first user with this email, or nothing. */
  function GetUserByEmail(reg: Registry, email: string): (r: Option<StoredUser>)
    ensures r.None? <==> !Registered(reg, email)
    ensures r.Some? ==> r.value in reg && r.value.email == email
    ensures r.Some? ==> exists i :: 0 <= i < |reg| && reg[i] == r.value &&
                                   forall j :: 0 <= j < i ==> reg[j].email != email
  {
    Seqs.Find(reg, (u: StoredUser) => u.email == email)
  }

  /** `mockUsers.saveUser`: appends the user unless the email is taken, and
      returns its argument either way. Registered emails stay distinct. */
  function SaveUser(reg: Registry, u: StoredUser): (r: (Registry, StoredUser))
    ensures r.1 == u
    ensures Registered(reg, u.email) ==> r.0 == reg
    ensures !Registered(reg, u.email) ==> r.0 == reg + [u]
    ensures EmailsDistinct(reg) ==> EmailsDistinct(r.0)
  {
    if GetUserByEmail(reg, u.email).Some? then (reg, u) else (reg + [u], u)
  }

  /** The session user built from a registry entry: the password is left out. */
  function SessionUser(u: StoredUser): User {
    User(u.id, u.email, u.name, u.avatarUrl)
  }

  const BadCredentials: string := "Invalid email or password"
  const EmailInUse: string := "Email already in use"

  /** Mock `signIn`: fails when no user has the email or the password differs,
      leaving everything as it was; otherwise stores and sets a session user
      without the password. */
  function SignIn(st: AuthState, email: string, password: string): (r: (AuthState, Result<User>))
    ensures r.1.Err? ==> r.0 == st && r.1.message == BadCredentials
    ensures r.1.Ok? <==> Registered(st.registry, email) && GetUserByEmail(st.registry, email).value.password == password
    ensures r.1.Ok? ==>
      && r.0 == st.(session := Some(r.1.value), user := Some(r.1.value))
      && r.1.value.email == email
      && r.1.value == SessionUser(GetUserByEmail(st.registry, email).value)
      && exists i :: 0 <= i < |st.registry| && st.registry[i].email == email &&
                     st.registry[i].password == password && r.1.value == SessionUser(st.registry[i])
  {
    match GetUserByEmail(st.registry, email)
    case None => (st, Err(BadCredentials))
    case Some(u) =>
      if u.password != password then (st, Err(BadCredentials))
      else
        var user := SessionUser(u);
        (st.(session := Some(user), user := Some(user)), Ok(user))
  }

  /** Mock `signUp`: a registered email fails, leaving everything as it was;
      otherwise a user with id "mock-<stamp>" is registered and becomes the
      session user (without the password). Registered emails stay distinct. */
  function SignUp(st: AuthState, email: string, password: string, name: string, stamp: string): (r: (AuthState, Result<User>))
    ensures r.1.Err? <==> Registered(st.registry, email)
    ensures r.1.Err? ==> r.0 == st && r.1.message == EmailInUse
    ensures r.1.Ok? ==>
      && r.0.registry == st.registry + [StoredUser("mock-" + stamp, email, password, Some(name), None)]
      && r.1.value == User("mock-" + stamp, email, Some(name), None)
      && r.0.session == Some(r.1.value) && r.0.user == Some(r.1.value)
    ensures EmailsDistinct(st.registry) ==> EmailsDistinct(r.0.registry)
  {
    if GetUserByEmail(st.registry, email).Some? then (st, Err(EmailInUse))
    else
      var stored := StoredUser("mock-" + stamp, email, password, Some(name), None);
      var (reg, _) := SaveUser(st.registry, stored);
      var user := SessionUser(stored);
      (AuthState(reg, Some(user), Some(user)), Ok(user))
  }

  /** Mock `signOut`: clears the stored session and the user; the registry is
      kept. */
  function SignOut(st: AuthState): (r: AuthState)
    ensures r.registry == st.registry && r.session.None? && r.user.None?
    ensures !IsAuthenticated(r)
  {
    AuthState(st.registry, None, None)
  }

  /** `isAuthenticated: !!user`. */
  predicate IsAuthenticated(st: AuthState) {
    st.user.Some?
  }

  /** The mock branch of `checkSession` on mount: a stored session's user
      becomes the user; without a stored session the user is left as it was
      (absent, at mount). */
  function RestoreSession(st: AuthState): (r: AuthState)
    ensures r.registry == st.registry && r.session == st.session
    ensures st.session.Some? ==> r.user == st.session
    ensures st.session.None? ==> r.user == st.user
    ensures st.user.None? ==> (IsAuthenticated(r) <==> st.session.Some?)
  {
    if st.session.Some? then st.(user := st.session) else st
  }

  /** Looking up the email of a user appended under a new email finds that
      user. */
  lemma LookupAppended(reg: Registry, u: StoredUser)
    requires !Registered(reg, u.email)
    ensures GetUserByEmail(reg + [u], u.email) == Some(u)
  {
    var reg' := reg + [u];
    assert reg'[|reg|].email == u.email;
    var found := GetUserByEmail(reg', u.email).value;
    var k :| 0 <= k < |reg'| && reg'[k] == found && forall j :: 0 <= j < k ==> reg'[j].email != u.email;
    assert k == |reg| by {
      if k < |reg| {
        assert false;
      }
    }
  }

  /** A user who has just signed up can sign in with the same email and
      password, and gets the same session user. */
  lemma SignUpThenSignIn(st: AuthState, email: string, password: string, name: string, stamp: string)
    requires !Registered(st.registry, email)
    ensures var (st1, u1) := SignUp(st, email, password, name, stamp);
            var (st2, u2) := SignIn(st1, email, password);
            u1.Ok? && u2 == u1 && st2 == st1
  {
    LookupAppended(st.registry, StoredUser("mock-" + stamp, email, password, Some(name), None));
  }

  /** The session user is the registry entry without its password: entries
      that differ only in the password give the same user, and the user
      carries the entry's id, email, name and avatar. */
  lemma SessionUserDropsPassword(u: StoredUser, password: string)
    ensures SessionUser(u.(password := password)) == SessionUser(u)
    ensures var v := SessionUser(u); v.id == u.id && v.email == u.email && v.name == u.name && v.avatarUrl == u.avatarUrl
  {
  }

  /** `isAuthenticated` after each action: a sign-in or sign-up
      authenticates exactly when it succeeds (a failed one keeps the previous
      state), the Google sign-in always does, and a sign-out never does. */
  lemma AuthenticatedAfter(st: AuthState, email: string, password: string, name: string, stamp: string)
    ensures var (st1, u) := SignIn(st, email, password);
            IsAuthenticated(st1) <==> u.Ok? || IsAuthenticated(st)
    ensures var (st1, u) := SignUp(st, email, password, name, stamp);
            IsAuthenticated(st1) <==> u.Ok? || IsAuthenticated(st)
    ensures IsAuthenticated(SignInWithGoogle(st, stamp))
    ensures !IsAuthenticated(SignOut(st))
  {
  }

  /** Signing up twice with one email fails the second time. */
  lemma SecondSignUpFails(st: AuthState, email: string, p1: string, p2: string,
                          n1: string, n2: string, s1: string, s2: string)
    requires !Registered(st.registry, email)
    ensures var st1 := SignUp(st, email, p1, n1, s1).0;
            SignUp(st1, email, p2, n2, s2) == (st1, Err(EmailInUse))
  {
    var st1 := SignUp(st, email, p1, n1, s1).0;
    assert st1.registry[|st.registry|].email == email;
  }

  /** A reload after signing in restores the same user; after signing out it
      restores nobody. */
  lemma SessionSurvivesReload(st: AuthState, email: string, password: string)
    ensures var (st1, u) := SignIn(st, email, password);
            u.Ok? ==> RestoreSession(st1.(user := None)).user == Some(u.value)
    ensures RestoreSession(SignOut(st).(user := None)).user.None?
  {
  }

  const GoogleEmail: string := "google-user@example.com"

  /** The mock Google sign-in: a user "google-mock-<stamp>" with a fixed email,
      name and avatar is saved with the password "mockpassword" (a no-op once
      that email is registered) and becomes the session user. */
  function SignInWithGoogle(st: AuthState, stamp: string): (r: AuthState)
    ensures r.session == r.user && r.user.Some? && IsAuthenticated(r)
    ensures r.user == Some(User("google-mock-" + stamp, GoogleEmail, Some("Google User"),
                                Some("https://lh3.googleusercontent.com/a/default-user")))
    ensures Registered(st.registry, GoogleEmail) ==> r.registry == st.registry
    ensures !Registered(st.registry, GoogleEmail) ==>
              r.registry == st.registry + [StoredUser("google-mock-" + stamp, GoogleEmail, "mockpassword",
                                                      r.user.value.name, r.user.value.avatarUrl)]
    ensures EmailsDistinct(st.registry) ==> EmailsDistinct(r.registry)
  {
    var user := User("google-mock-" + stamp, GoogleEmail, Some("Google User"),
                     Some("https://lh3.googleusercontent.com/a/default-user"));
    var stored := StoredUser(user.id, user.email, "mockpassword", user.name, user.avatarUrl);
    var (reg, _) := SaveUser(st.registry, stored);
    assert !Registered(st.registry, GoogleEmail) ==> reg[..|st.registry|] == st.registry;
    AuthState(reg, Some(user), Some(user))
  }

  /** A second mock Google sign-in (at another time) keeps the registry entry
      of the first but signs in under a new id, so the session user is not the
      registered one. */
  lemma GoogleReSignInChangesId(st: AuthState, t1: string, t2: string)
    requires !Registered(st.registry, GoogleEmail) && t1 != t2
    ensures var st1 := SignInWithGoogle(st, t1);
            var st2 := SignInWithGoogle(st1, t2);
            && st2.registry == st1.registry
            && st2.user.value.id != st1.user.value.id
            && GetUserByEmail(st2.registry, GoogleEmail).Some?
            && GetUserByEmail(st2.registry, GoogleEmail).value.id != st2.user.value.id
  {
    var st1 := SignInWithGoogle(st, t1);
    var u1 := StoredUser("google-mock-" + t1, GoogleEmail, "mockpassword", Some("Google User"),
                         Some("https://lh3.googleusercontent.com/a/default-user"));
    assert st1.registry == st.registry + [u1];
    LookupAppended(st.registry, u1);
    assert st1.registry[|st.registry|].email == GoogleEmail;
    assert ("google-mock-" + t1)[12..] == t1 && ("google-mock-" + t2)[12..] == t2;
  }

  /** The part of an email before its first '@' (all of it when there is
      none): `email.split('@')[0]`, used by the hosted-backend branch's
      display name below. */
  function LocalPart(email: string): (r: string)
    ensures '@' !in r
    ensures |r| <= |email| && email[..|r|] == r
    ensures |r| < |email| ==> email[|r|] == '@'
  {
    var parts := SplitOn(email, '@');
    assert |parts| > 1 ==> Join(parts, "@") == parts[0] + "@" + Join(parts[1..], "@");
    parts[0]
  }

  /** The display name of the hosted-backend branch of `checkSession` (not
      the mock service), which maps the backend session's user to a `User`:
      the metadata name if truthy, else the email's part before '@' if
      non-empty, else "User". It is never empty. */
  function DisplayName(metadataName: Option<string>, email: Option<string>): (r: string)
    ensures r != ""
    ensures Truthy(metadataName) ==> r == metadataName.value
    ensures !Truthy(metadataName) && email.Some? && LocalPart(email.value) != "" ==> r == LocalPart(email.value)
    ensures !Truthy(metadataName) && (email.None? || email.value == "" || email.value[0] == '@') ==> r == "User"
  {
    if Truthy(metadataName) then metadataName.value
    else if email.Some? && LocalPart(email.value) != "" then LocalPart(email.value)
    else "User"
  }
}
