/** The mock session provider: a fixed credential directory, the signed-in
    user, the persisted `"user"` storage slot and the loading flag, with the
    operations the provider exposes (initialise from storage, log in,
    register, log out) as total transitions that report success or a
    rejection. Each asynchronous operation is modelled by the state it
    settles in; the notifications it emits are not modelled. */
module Auth {
  import opened Wrappers
  import Text

  const AdminRole := "admin"
  const ResearcherRole := "researcher"
  const FarmerRole := "farmer"

  /** An identity as the session holds and persists it (no password).
      `role` is a plain string: registration casts whatever it is given. */
  datatype User = User(id: string, name: string, email: string, role: string, avatarUrl: Option<string>)

  /** A directory entry: an identity together with its plaintext password. */
  datatype Credential = Credential(
    id: string, name: string, email: string, password: string, role: string, avatarUrl: Option<string>)

  /** The three demonstration accounts the provider is built with. */
  const MockUsers: seq<Credential> := [
    Credential("1", "Admin User", "admin@example.com", "admin123", AdminRole, Some("")),
    Credential("2", "Researcher", "researcher@example.com", "research123", ResearcherRole, Some("")),
    Credential("3", "Farmer", "farmer@example.com", "farm123", FarmerRole, Some(""))
  ]

  datatype AuthError = InvalidCredentials | UserAlreadyExists

  /** The message of the `Error` each rejection throws; the two messages
      differ, so a caller can tell the rejections apart by message alone. */
  function Message(e: AuthError): (m: string)
    ensures m == "Invalid credentials" <==> e == InvalidCredentials
    ensures m == "User already exists" <==> e == UserAlreadyExists
  {
    match e
    case InvalidCredentials => "Invalid credentials"
    case UserAlreadyExists => "User already exists"
  }

  /** The provider's state. `stored` is the persisted `"user"` slot, whose
      serialisation round-trips exactly, so it is kept as the record itself. */
  datatype AuthState = AuthState(directory: seq<Credential>, user: Option<User>, stored: Option<User>, isLoading: bool)

  /** The state an operation settles in, and whether its promise resolved
      (`Pass`) or rejected (`Fail`). */
  datatype Reply = Reply(state: AuthState, status: Outcome<AuthError>)

  /** `isAuthenticated`: a user object is present. */
  predicate IsAuthenticated(s: AuthState) {
    s.user.Some?
  }

  /** The in-memory user agrees with the persisted slot. */
  predicate Coherent(s: AuthState) {
    s.user == s.stored
  }

  /** The provider as first rendered, before its effect has run: no user,
      still loading, storage holding whatever a previous session left. */
  function Mount(slot: Option<User>): (s: AuthState)
    ensures s.directory == MockUsers && s.stored == slot
    ensures !IsAuthenticated(s) && s.isLoading
  {
    AuthState(MockUsers, None, slot, true)
  }

  /** The mount effect: adopt the persisted user when there is one, and stop
      loading in either case. */
  function Initialize(s: AuthState): (r: AuthState)
    ensures !r.isLoading
    ensures s.stored.Some? ==> Coherent(r)
    ensures s.stored.None? ==> r.user == s.user
    ensures r.stored == s.stored && r.directory == s.directory
  {
    if s.stored.Some? then s.(user := s.stored, isLoading := false)
    else s.(isLoading := false)
  }

  /** Exact, case-sensitive equality on both email and password. */
  predicate Matches(c: Credential, email: string, password: string) {
    c.email == email && c.password == password
  }

  /** `MOCK_USERS.find(...)`: the index of the first entry matching both
      email and password, or `None` when no entry does. */
  function FindLogin(directory: seq<Credential>, email: string, password: string): (r: Option<nat>)
    ensures r.None? <==> forall i :: 0 <= i < |directory| ==> !Matches(directory[i], email, password)
    ensures r.Some? ==> r.value < |directory| && Matches(directory[r.value], email, password)
    ensures r.Some? ==> forall j :: 0 <= j < r.value ==> !Matches(directory[j], email, password)
  {
    if |directory| == 0 then None
    else if Matches(directory[0], email, password) then Some(0)
    else
      match FindLogin(directory[1..], email, password)
      case None => None
      case Some(i) => Some(i + 1)
  }

  /** The directory entry with its password field dropped. */
  function WithoutPassword(c: Credential): User {
    User(c.id, c.name, c.email, c.role, c.avatarUrl)
  }

  /** `login(email, password)`. */
  function Login(s: AuthState, email: string, password: string): (r: Reply)
    ensures r.status.Pass? <==> exists i :: 0 <= i < |s.directory| && Matches(s.directory[i], email, password)
    ensures r.status.Pass? ==>
      exists i :: 0 <= i < |s.directory| && Matches(s.directory[i], email, password)
        && (forall j :: 0 <= j < i ==> !Matches(s.directory[j], email, password))
        && r.state.user == Some(WithoutPassword(s.directory[i]))
    ensures r.status.Pass? ==> Coherent(r.state)
    ensures r.status.Fail? ==> r.status.error == InvalidCredentials && Message(r.status.error) == "Invalid credentials"
    ensures r.status.Fail? ==> r.state == s.(isLoading := false)
    ensures r.state.directory == s.directory && !r.state.isLoading
  {
    match FindLogin(s.directory, email, password)
    case None => Reply(s.(isLoading := false), Fail(InvalidCredentials))
    case Some(i) =>
      var u := Some(WithoutPassword(s.directory[i]));
      Reply(s.(user := u, stored := u, isLoading := false), Pass)
  }

  /** `MOCK_USERS.some(u => u.email === email)`. */
  predicate EmailTaken(directory: seq<Credential>, email: string) {
    exists i :: 0 <= i < |directory| && directory[i].email == email
  }

  /** `register(name, email, password, role)`. The password is accepted and
      ignored, the directory is never extended, and the new identifier is the
      numeral of the directory's length plus one. */
  function Register(s: AuthState, name: string, email: string, password: string, role: string): (r: Reply)
    ensures r.status.Fail? <==> exists i :: 0 <= i < |s.directory| && s.directory[i].email == email
    ensures r.status.Fail? ==> r.status.error == UserAlreadyExists && Message(r.status.error) == "User already exists"
    ensures r.status.Fail? ==> r.state == s.(isLoading := false)
    ensures r.status.Pass? ==> Coherent(r.state) && r.state.user.Some?
    ensures r.status.Pass? ==>
      var u := r.state.user.value;
      && u.name == name && u.email == email && u.role == role && u.avatarUrl == Some("")
      && Text.AllDigits(u.id) && Text.DecimalValue(u.id) == |s.directory| + 1 && u.id[0] != '0'
      && u.id == Text.DecimalString(|s.directory| + 1)
    ensures r.state.directory == s.directory && !r.state.isLoading
  {
    if EmailTaken(s.directory, email) then
      Reply(s.(isLoading := false), Fail(UserAlreadyExists))
    else
      var u := Some(User(Text.DecimalString(|s.directory| + 1), name, email, role, Some("")));
      Reply(s.(user := u, stored := u, isLoading := false), Pass)
  }

  /** `logout()`: drop the user and the persisted slot, whatever they held. */
  function Logout(s: AuthState): (r: AuthState)
    ensures !IsAuthenticated(r) && r.stored.None?
    ensures r.directory == s.directory && r.isLoading == s.isLoading
  {
    s.(user := None, stored := None)
  }

  /** What a protected page renders: its log-in notice, or its content for
      the signed-in user. */
  datatype Gate = Denied(notice: string) | Granted(user: User)

  /** The per-page guard: without a user the page shows only `notice`. */
  function Guard(s: AuthState, notice: string): (g: Gate)
    ensures g.Denied? <==> !IsAuthenticated(s)
    ensures g.Denied? ==> g.notice == notice
    ensures g.Granted? ==> s.user == Some(g.user)
  {
    match s.user
    case None => Denied(notice)
    case Some(u) => Granted(u)
  }

  // ---------------------------------------------------------------------
  // Properties relating several operations
  // ---------------------------------------------------------------------

  /** After the mount effect the session is the persisted one, loading has
      finished, and memory agrees with storage. */
  lemma InitializeRestoresSlot(slot: Option<User>)
    ensures var s := Initialize(Mount(slot));
      s.user == slot && Coherent(s) && !s.isLoading && (IsAuthenticated(s) <==> slot.Some?)
  {
  }

  /** Every settled operation leaves memory and storage in agreement, given
      that they agreed before; a successful login or registration and a
      logout establish agreement from any state. */
  lemma OperationsKeepCoherence(s: AuthState, name: string, email: string, password: string, role: string)
    requires Coherent(s)
    ensures Coherent(Initialize(s))
    ensures Coherent(Login(s, email, password).state)
    ensures Coherent(Register(s, name, email, password, role).state)
    ensures Coherent(Logout(s))
  {
  }

  /** A session written by a successful login or registration survives a
      reload: mounting afresh over the slot it left restores the same user. */
  lemma SessionSurvivesReload(s: AuthState, name: string, email: string, password: string, role: string)
    ensures var r := Login(s, email, password);
      r.status.Pass? ==> Initialize(Mount(r.state.stored)).user == r.state.user
    ensures var r := Register(s, name, email, password, role);
      r.status.Pass? ==> Initialize(Mount(r.state.stored)).user == r.state.user
  {
  }

  /** Logging out twice is the same as logging out once. */
  lemma LogoutIdempotent(s: AuthState)
    ensures Logout(Logout(s)) == Logout(s)
  {
  }

  /** Registration never records the new account: the same email can be
      registered again straight afterwards, and receives the same identifier. */
  lemma RegisterRepeatable(s: AuthState, name: string, email: string, password: string, role: string,
                           name': string, password': string, role': string)
    requires Register(s, name, email, password, role).status.Pass?
    ensures var first := Register(s, name, email, password, role);
      var second := Register(first.state, name', email, password', role');
      && second.status.Pass?
      && second.state.user.value.id == first.state.user.value.id
  {
  }

  /** In the demonstration directory the identifiers are the numerals
      1, 2, 3 in order. */
  lemma MockIdsAreOneBased()
    ensures forall i :: 0 <= i < |MockUsers| ==> MockUsers[i].id == Text.DecimalString(i + 1)
  {
    assert Text.DecimalString(1) == "1";
    assert Text.DecimalString(2) == "2";
    assert Text.DecimalString(3) == "3";
  }

  /** Where the directory's identifiers are its one-based positions, the
      identifier a registration assigns is held by no directory entry. */
  lemma RegisteredIdIsFresh(directory: seq<Credential>)
    requires forall i :: 0 <= i < |directory| ==> directory[i].id == Text.DecimalString(i + 1)
    ensures forall i :: 0 <= i < |directory| ==> directory[i].id != Text.DecimalString(|directory| + 1)
  {
  }

  /** Against the demonstration accounts, correct credentials sign in with
      the account's role, while a wrong password or a differently cased email
      is rejected and leaves the session empty. */
  lemma DemoLogin()
    ensures var s := Initialize(Mount(None));
      && Login(s, "admin@example.com", "admin123").status.Pass?
      && Login(s, "admin@example.com", "admin123").state.user.value.role == AdminRole
      && Login(s, "admin@example.com", "wrong") == Reply(s, Fail(InvalidCredentials))
      && Login(s, "Admin@example.com", "admin123").status.Fail?
  {
    assert Matches(MockUsers[0], "admin@example.com", "admin123");
  }

  /** Against the demonstration accounts, a taken email cannot be registered,
      while a fresh one receives identifier "4". */
  lemma DemoRegister()
    ensures var s := Initialize(Mount(None));
      && Register(s, "New", "admin@example.com", "x", FarmerRole) == Reply(s, Fail(UserAlreadyExists))
      && Register(s, "New", "new@example.com", "x", FarmerRole).state.user.value.id == "4"
  {
    assert MockUsers[0].email == "admin@example.com";
    assert Text.DecimalString(4) == "4";
  }
}
