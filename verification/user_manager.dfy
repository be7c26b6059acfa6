/**
 User accounts and the login session (`User`, `UserRole`, `UserManager`).
 The stored user list and the current-user session of the preferences file
 are one `Registry` value; every operation returns the registry afterwards.
 The clock is the `now` parameter of the operations that create a user.
 */
module Users {
  import opened Wrappers
  import opened Text
  import opened Seqs

  datatype UserRole = Admin | Driver | Passenger {
    function DisplayName(): string {
      match this
      case Admin => "Admin"
      case Driver => "Driver"
      case Passenger => "Passenger"
    }
  }

  /**
   A stored account. Every account is built by the six-argument constructor,
   so its text fields and role are set; the two driver fields stay null
   until a profile update fills them.
   */
  datatype User = User(
    userId: string,
    username: string,
    email: string,
    phoneNumber: string,
    password: string,
    role: UserRole,
    fullName: string,
    createdAt: int,
    isActive: bool,
    licenseNumber: Option<string>,
    vehicleDetails: Option<string>,
    isAvailable: bool)

  const UserIdPrefix: string := "USER"

  /** `new User(username, email, phoneNumber, password, role, fullName)` at clock reading `now`. */
  function NewUser(username: string, email: string, phoneNumber: string, password: string,
                   role: UserRole, fullName: string, now: int): (u: User)
    ensures IsPrefix(UserIdPrefix, u.userId) && |u.userId| > |UserIdPrefix|
    ensures u.username == username && u.email == email && u.phoneNumber == phoneNumber
    ensures u.password == password && u.role == role && u.fullName == fullName
    ensures u.createdAt == now
    ensures u.isActive && !u.isAvailable
    ensures u.licenseNumber.None? && u.vehicleDetails.None?
  {
    User(UserIdPrefix + IntToString(now), username, email, phoneNumber, password, role, fullName,
         now, true, None, None, false)
  }

  /**
   The stored user list, the in-memory current user, and the `is_logged_in`
   flag of the preferences file.
   */
  datatype Registry = Registry(users: seq<User>, currentUser: Option<User>, loggedInFlag: bool)

  /** A fresh installation: no users and no session. */
  const EmptyRegistry := Registry([], None, false)

  /** `isLoggedIn`: the stored flag is set and a current user is held. */
  predicate IsLoggedIn(reg: Registry): (r: bool)
    ensures r ==> reg.currentUser.Some?
    ensures !reg.loggedInFlag ==> !r
    ensures reg.loggedInFlag && reg.currentUser.Some? ==> r
  {
    reg.loggedInFlag && reg.currentUser.Some?
  }

  // ---------------------------------------------------------------------
  // Default users and registration
  // ---------------------------------------------------------------------

  /** The administrator account seeded into an empty store. */
  function DefaultAdmin(now: int): (u: User)
    ensures u.role == Admin && u.isActive
    ensures u.username == "admin" && u.password == "admin123"
  {
    NewUser("admin", "admin@vehiclebooking.com", "1234567890", "admin123", Admin,
            "System Administrator", now)
  }

  /** `initializeDefaultUsers`: seeds the administrator only when no user exists. */
  function InitializeDefaultUsers(reg: Registry, now: int): (r: Registry)
    ensures reg.users == [] ==> r.users == [DefaultAdmin(now)]
    ensures reg.users != [] ==> r == reg
    ensures r.currentUser == reg.currentUser && r.loggedInFlag == reg.loggedInFlag
  {
    if reg.users == [] then reg.(users := [DefaultAdmin(now)]) else reg
  }

  /** Seeding twice, at any two clock readings, seeds once. */
  lemma {:induction false} InitializeIsIdempotent(reg: Registry, t1: int, t2: int)
    ensures InitializeDefaultUsers(InitializeDefaultUsers(reg, t1), t2) == InitializeDefaultUsers(reg, t1)
    ensures |InitializeDefaultUsers(reg, t1).users| >= 1
  {
  }

  predicate UsernameTaken(users: seq<User>, username: string) {
    exists i :: 0 <= i < |users| && users[i].username == username
  }

  predicate EmailTaken(users: seq<User>, email: string) {
    exists i :: 0 <= i < |users| && users[i].email == email
  }

  function HasUsername(username: string): User -> bool {
    (u: User) => u.username == username
  }

  function HasEmail(email: string): User -> bool {
    (u: User) => u.email == email
  }

  /** `isUsernameExists`: the scan for a stored user with this username. */
  function IsUsernameExists(users: seq<User>, username: string): (r: bool)
    ensures r <==> UsernameTaken(users, username)
  {
    FirstIndex(users, HasUsername(username)).Some?
  }

  /** `isEmailExists`: the scan for a stored user with this email. */
  function IsEmailExists(users: seq<User>, email: string): (r: bool)
    ensures r <==> EmailTaken(users, email)
  {
    FirstIndex(users, HasEmail(email)).Some?
  }

  /**
   `registerUser`: refused when the username or the email is already taken;
   otherwise the new account is appended. The session is not touched.
   */
  function RegisterUser(reg: Registry, username: string, email: string, phoneNumber: string,
                        password: string, role: UserRole, fullName: string, now: int): (r: (bool, Registry))
    ensures r.0 <==> !UsernameTaken(reg.users, username) && !EmailTaken(reg.users, email)
    ensures r.0 ==> r.1 == reg.(users := reg.users + [NewUser(username, email, phoneNumber, password, role, fullName, now)])
    ensures !r.0 ==> r.1 == reg
  {
    if IsUsernameExists(reg.users, username) then (false, reg)
    else if IsEmailExists(reg.users, email) then (false, reg)
    else (true, reg.(users := reg.users + [NewUser(username, email, phoneNumber, password, role, fullName, now)]))
  }

  /** No two stored accounts share a username or an email. */
  predicate AccountsUnique(users: seq<User>) {
    forall i, j :: 0 <= i < j < |users| ==>
      users[i].username != users[j].username && users[i].email != users[j].email
  }

  /** Registration keeps usernames and emails unique ... */
  lemma {:induction false} RegisterKeepsAccountsUnique(reg: Registry, username: string, email: string, phoneNumber: string,
                                    password: string, role: UserRole, fullName: string, now: int)
    requires AccountsUnique(reg.users)
    ensures AccountsUnique(RegisterUser(reg, username, email, phoneNumber, password, role, fullName, now).1.users)
  {
    var r := RegisterUser(reg, username, email, phoneNumber, password, role, fullName, now);
    if r.0 {
      var users := r.1.users;
      forall i, j | 0 <= i < j < |users|
        ensures users[i].username != users[j].username && users[i].email != users[j].email
      {
        if j == |reg.users| {
          assert users[i] == reg.users[i];
        } else {
          assert users[i] == reg.users[i] && users[j] == reg.users[j];
        }
      }
    }
  }

  /** ... and so does seeding the administrator. */
  lemma {:induction false} InitializeKeepsAccountsUnique(reg: Registry, now: int)
    requires AccountsUnique(reg.users)
    ensures AccountsUnique(InitializeDefaultUsers(reg, now).users)
  {
  }

  // ---------------------------------------------------------------------
  // Session
  // ---------------------------------------------------------------------

  /** The credentials match an active account. */
  predicate CanLogIn(u: User, username: string, password: string) {
    u.username == username && u.password == password && u.isActive
  }

  function Credentials(username: string, password: string): User -> bool {
    (u: User) => CanLogIn(u, username, password)
  }

  /**
   `login`: the first active account with this username and password becomes
   the current user and the session flag is set; a failed login changes
   nothing, not even an existing session.
   */
  function Login(reg: Registry, username: string, password: string): (r: (bool, Registry))
    ensures r.0 <==> exists i :: 0 <= i < |reg.users| && CanLogIn(reg.users[i], username, password)
    ensures r.0 ==> IsLoggedIn(r.1) && r.1.users == reg.users
    ensures r.0 ==> exists i :: 0 <= i < |reg.users| && r.1.currentUser == Some(reg.users[i])
                               && CanLogIn(reg.users[i], username, password)
                               && forall j :: 0 <= j < i ==> !CanLogIn(reg.users[j], username, password)
    ensures !r.0 ==> r.1 == reg
  {
    match FirstIndex(reg.users, Credentials(username, password))
    case None => (false, reg)
    case Some(i) => (true, Registry(reg.users, Some(reg.users[i]), true))
  }

  /** `logout`: the current user is dropped and the flag cleared; the accounts stay. */
  function Logout(reg: Registry): (r: Registry)
    ensures !IsLoggedIn(r)
    ensures r.users == reg.users && r.currentUser.None?
  {
    Registry(reg.users, None, false)
  }

  /** A freshly registered account can log in at once, and is the one that logs in. */
  lemma {:induction false} RegisterThenLogin(reg: Registry, username: string, email: string, phoneNumber: string,
                          password: string, role: UserRole, fullName: string, now: int)
    requires RegisterUser(reg, username, email, phoneNumber, password, role, fullName, now).0
    ensures var after := RegisterUser(reg, username, email, phoneNumber, password, role, fullName, now).1;
            var r := Login(after, username, password);
            r.0 && r.1.currentUser == Some(NewUser(username, email, phoneNumber, password, role, fullName, now))
  {
    var after := RegisterUser(reg, username, email, phoneNumber, password, role, fullName, now).1;
    var n := |reg.users|;
    assert CanLogIn(after.users[n], username, password);
    var r := Login(after, username, password);
    forall j | 0 <= j < n
      ensures !CanLogIn(after.users[j], username, password)
    {
      assert after.users[j] == reg.users[j];
    }
    var i :| 0 <= i < |after.users| && r.1.currentUser == Some(after.users[i])
             && CanLogIn(after.users[i], username, password);
    assert i == n;
  }

  /** Logging out and back in with the same credentials restores the session. */
  lemma {:induction false} LogoutThenLogin(reg: Registry, username: string, password: string)
    requires Login(reg, username, password).0
    ensures Login(Logout(Login(reg, username, password).1), username, password)
            == Login(reg, username, password)
  {
  }

  // ---------------------------------------------------------------------
  // Profile updates and role lists
  // ---------------------------------------------------------------------

  function HasUserId(userId: string): User -> bool {
    (u: User) => u.userId == userId
  }

  /** The first stored account with this id, as every id lookup scans. */
  function FindById(users: seq<User>, userId: string): (r: Option<User>)
    ensures r.Some? ==> r.value in users && r.value.userId == userId
    ensures r.Some? ==> exists k :: 0 <= k < |users| && users[k] == r.value
                                   && forall j :: 0 <= j < k ==> users[j].userId != userId
    ensures r.None? <==> forall i :: 0 <= i < |users| ==> users[i].userId != userId
  {
    match FirstIndex(users, HasUserId(userId))
    case None => None
    case Some(i) => Some(users[i])
  }

  /**
   `updateUser`: the first account with the same id is replaced; if it is
   the current user, the session holds the new copy and the flag is set.
   Without an account of that id nothing changes.
   */
  function UpdateUser(reg: Registry, updated: User): (r: (bool, Registry))
    ensures r.0 <==> exists i :: 0 <= i < |reg.users| && reg.users[i].userId == updated.userId
    ensures |r.1.users| == |reg.users|
    ensures r.0 ==> exists k :: 0 <= k < |reg.users| && reg.users[k].userId == updated.userId
                               && (forall j :: 0 <= j < k ==> reg.users[j].userId != updated.userId)
                               && r.1.users == reg.users[k := updated]
    ensures r.0 && reg.currentUser.Some? && reg.currentUser.value.userId == updated.userId ==>
              r.1.currentUser == Some(updated) && r.1.loggedInFlag
    ensures !(r.0 && reg.currentUser.Some? && reg.currentUser.value.userId == updated.userId) ==>
              r.1.currentUser == reg.currentUser && r.1.loggedInFlag == reg.loggedInFlag
    ensures !r.0 ==> r.1 == reg
  {
    match FirstIndex(reg.users, HasUserId(updated.userId))
    case None => (false, reg)
    case Some(k) =>
      var users := reg.users[k := updated];
      if reg.currentUser.Some? && reg.currentUser.value.userId == updated.userId then
        (true, Registry(users, Some(updated), true))
      else
        (true, reg.(users := users))
  }

  /** After a successful update, looking the id up finds the updated account. */
  lemma {:induction false} UpdateThenFind(reg: Registry, updated: User)
    requires UpdateUser(reg, updated).0
    ensures FindById(UpdateUser(reg, updated).1.users, updated.userId) == Some(updated)
  {
    var users := UpdateUser(reg, updated).1.users;
    var k :| 0 <= k < |reg.users| && reg.users[k].userId == updated.userId
             && (forall j :: 0 <= j < k ==> reg.users[j].userId != updated.userId)
             && users == reg.users[k := updated];
    var p := HasUserId(updated.userId);
    var idx := FirstIndex(users, p);
    assert p(users[k]);
    forall j | 0 <= j < k
      ensures !p(users[j])
    {
      assert users[j] == reg.users[j];
    }
    assert idx.Some? && idx.value == k;
  }

  function HasRole(role: UserRole): User -> bool {
    (u: User) => u.role == role
  }

  /** `getUsersByRole`: the accounts of one role, in stored order. */
  function GetUsersByRole(reg: Registry, role: UserRole): (r: seq<User>)
    ensures IsSubseq(r, reg.users)
    ensures forall i :: 0 <= i < |r| ==> r[i].role == role
    ensures forall u :: u in reg.users && u.role == role ==> u in r
    ensures |r| == Count(reg.users, HasRole(role))
  {
    var r := Filter(reg.users, HasRole(role));
    CountIsFilterLength(reg.users, HasRole(role));
    forall u | u in reg.users && u.role == role
      ensures u in r
    {
      FilterKeepsMatching(reg.users, HasRole(role), u);
    }
    r
  }

  /** Every account has exactly one role: the three role lists together count every account. */
  lemma {:induction false} RolesPartitionUsers(users: seq<User>)
    ensures Count(users, HasRole(Admin)) + Count(users, HasRole(Driver)) + Count(users, HasRole(Passenger)) == |users|
  {
    if |users| > 0 {
      RolesPartitionUsers(users[..|users| - 1]);
    }
  }

  lemma {:induction false} RoleListsCoverRegistry(reg: Registry)
    ensures |GetUsersByRole(reg, Admin)| + |GetUsersByRole(reg, Driver)| + |GetUsersByRole(reg, Passenger)| == |reg.users|
  {
    RolesPartitionUsers(reg.users);
    CountIsFilterLength(reg.users, HasRole(Admin));
    CountIsFilterLength(reg.users, HasRole(Driver));
    CountIsFilterLength(reg.users, HasRole(Passenger));
  }
}
