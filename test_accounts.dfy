/** The `ensure_testaccounts` management command: it brings the two demo
    accounts (the `microvanuta` curator and the `microstudent` student) to a
    fixed state, creating them when they are missing.

    The database is modelled as the three tables the command touches: users
    keyed by username, role grants as (user, site, role) rows, and student
    profiles keyed by (user, type). Django's `update_or_create` becomes a map
    upsert or a set insertion. The current site and year are parameters. */
module TestAccounts {
  import opened Wrappers

  datatype Role = Curator | Student | OtherRole(code: int)
  datatype Gender = OtherGender | GenderCode(code: string)
  datatype StudentType = Invited | OtherStudentType(code: string)
  datatype StudentStatus = Normal | OtherStatus(code: string)

  /** The columns of a user that the command writes; the password is the
      plain text the stored hash verifies (None: unusable). */
  datatype User = User(email: string, firstName: string, lastName: string, isStaff: bool,
                       isSuperuser: bool, gender: Gender, isActive: bool, password: Option<string>)

  /** A `UserGroup` row. */
  datatype Grant = Grant(username: string, site: int, role: Role)

  /** The columns of a student profile that the command writes. */
  datatype Profile = Profile(status: StudentStatus, yearOfAdmission: int, studentId: string, comment: string)

  /** A row of the account table. */
  datatype Account = Account(username: string, email: string, firstName: string, lastName: string,
                             isStaff: bool, isSuperuser: bool, roles: seq<Role>,
                             createProfile: bool, profileType: Option<StudentType>)

  /** The account table of `handle`. */
  const Accounts: seq<Account> := [
    Account("microvanuta", "microvanuta@example.com", "Micro", "Vanuta", true, true, [Curator], false, None),
    Account("microstudent", "microstudent@example.com", "Micro", "Student", false, false, [Student], true, Some(Invited))]

  /** The password every demo account is reset to. */
  const Password := "Keklol123"

  /** The three tables. */
  datatype DbState = DbState(users: map<string, User>, grants: set<Grant>, profiles: map<(string, StudentType), Profile>)

  /** A user after the upsert and the password reset. */
  function ExpectedUser(a: Account): User {
    User(a.email, a.firstName, a.lastName, a.isStaff, a.isSuperuser, OtherGender, true, Some(Password))
  }

  /** The profile type an account asks for, INVITED by default. */
  function ProfileTypeOf(a: Account): StudentType {
    if a.profileType.Some? then a.profileType.value else Invited
  }

  /** A profile after its upsert. */
  function ExpectedProfile(year: int): Profile {
    Profile(Normal, year, "", "")
  }

  /** The grants of one account's roles at a site. */
  function RoleGrants(username: string, site: int, roles: seq<Role>): (g: set<Grant>)
    ensures forall x :: x in g <==> x.username == username && x.site == site && x.role in roles
  {
    set r | r in roles :: Grant(username, site, r)
  }

  /** One iteration of the loop in `handle`. */
  function EnsureAccount(s: DbState, a: Account, site: int, year: int): DbState {
    DbState(
      s.users[a.username := ExpectedUser(a)],
      s.grants + RoleGrants(a.username, site, a.roles),
      if a.createProfile then s.profiles[(a.username, ProfileTypeOf(a)) := ExpectedProfile(year)] else s.profiles)
  }

  /** The loop in `handle` over a table of accounts, in table order. */
  function EnsureAll(s: DbState, accounts: seq<Account>, site: int, year: int): DbState
    decreases |accounts|
  {
    if accounts == [] then s
    else EnsureAccount(EnsureAll(s, accounts[..|accounts| - 1], site, year), accounts[|accounts| - 1], site, year)
  }

  /** The grants of every account in a table. */
  function TableGrants(accounts: seq<Account>, site: int): (g: set<Grant>)
    ensures forall x :: x in g <==> x.site == site && exists i :: 0 <= i < |accounts| && x.username == accounts[i].username && x.role in accounts[i].roles
    decreases |accounts|
  {
    if accounts == [] then {}
    else
      var prefix := accounts[..|accounts| - 1];
      assert forall i :: 0 <= i < |prefix| ==> prefix[i] == accounts[i];
      TableGrants(prefix, site) + RoleGrants(accounts[|accounts| - 1].username, site, accounts[|accounts| - 1].roles)
  }

  predicate DistinctUsernames(accounts: seq<Account>) {
    forall i, j :: 0 <= i < j < |accounts| ==> accounts[i].username != accounts[j].username
  }

  /** Whether a table asks for the profile under a key. */
  predicate AsksForProfile(accounts: seq<Account>, key: (string, StudentType)) {
    exists i :: 0 <= i < |accounts| && accounts[i].createProfile && key == (accounts[i].username, ProfileTypeOf(accounts[i]))
  }

  /** After the loop every account of the table holds its table values, the
      reset password, gender OTHER and `is_active`, and every other user is as
      it was. */
  lemma {:induction false} EnsureAllUsers(s: DbState, accounts: seq<Account>, site: int, year: int)
    requires DistinctUsernames(accounts)
    ensures var r := EnsureAll(s, accounts, site, year).users;
      (forall i :: 0 <= i < |accounts| ==> accounts[i].username in r && r[accounts[i].username] == ExpectedUser(accounts[i])) &&
      (forall u :: (forall i :: 0 <= i < |accounts| ==> accounts[i].username != u) ==>
         (u in r <==> u in s.users) && (u in s.users ==> r[u] == s.users[u]))
    decreases |accounts|
  {
    if accounts != [] {
      var prefix := accounts[..|accounts| - 1];
      assert forall i :: 0 <= i < |prefix| ==> prefix[i] == accounts[i];
      EnsureAllUsers(s, prefix, site, year);
    }
  }

  /** After the loop the grants are the old ones plus the table's, so a grant
      already present is not added twice. */
  lemma {:induction false} EnsureAllGrants(s: DbState, accounts: seq<Account>, site: int, year: int)
    ensures EnsureAll(s, accounts, site, year).grants == s.grants + TableGrants(accounts, site)
    decreases |accounts|
  {
    if accounts != [] {
      EnsureAllGrants(s, accounts[..|accounts| - 1], site, year);
    }
  }

  /** After the loop the profiles the table asks for hold the fixed values,
      and every other profile is as it was. */
  lemma {:induction false} EnsureAllProfiles(s: DbState, accounts: seq<Account>, site: int, year: int)
    ensures var r := EnsureAll(s, accounts, site, year).profiles;
      (forall key :: AsksForProfile(accounts, key) ==> key in r && r[key] == ExpectedProfile(year)) &&
      (forall key :: !AsksForProfile(accounts, key) ==>
         (key in r <==> key in s.profiles) && (key in s.profiles ==> r[key] == s.profiles[key]))
    decreases |accounts|
  {
    if accounts != [] {
      var prefix := accounts[..|accounts| - 1];
      var a := accounts[|accounts| - 1];
      assert forall i :: 0 <= i < |prefix| ==> prefix[i] == accounts[i];
      EnsureAllProfiles(s, prefix, site, year);
      var r := EnsureAll(s, accounts, site, year).profiles;
      forall key | AsksForProfile(accounts, key)
        ensures key in r && r[key] == ExpectedProfile(year)
      {
        var i :| 0 <= i < |accounts| && accounts[i].createProfile && key == (accounts[i].username, ProfileTypeOf(accounts[i]));
        if i < |prefix| {
          assert AsksForProfile(prefix, key);
        }
      }
      forall key | !AsksForProfile(accounts, key)
        ensures (key in r <==> key in s.profiles) && (key in s.profiles ==> r[key] == s.profiles[key])
      {
        assert !AsksForProfile(prefix, key);
      }
    }
  }

  lemma UsersIdempotent(s: DbState, accounts: seq<Account>, site: int, year: int)
    requires DistinctUsernames(accounts)
    ensures var once := EnsureAll(s, accounts, site, year);
      EnsureAll(once, accounts, site, year).users == once.users
  {
    var once := EnsureAll(s, accounts, site, year);
    var twice := EnsureAll(once, accounts, site, year).users;
    EnsureAllUsers(s, accounts, site, year);
    EnsureAllUsers(once, accounts, site, year);
    forall u | u in twice || u in once.users
      ensures u in twice && u in once.users && twice[u] == once.users[u]
    {
      if i :| 0 <= i < |accounts| && accounts[i].username == u {
      }
    }
  }

  lemma ProfilesIdempotent(s: DbState, accounts: seq<Account>, site: int, year: int)
    ensures var once := EnsureAll(s, accounts, site, year);
      EnsureAll(once, accounts, site, year).profiles == once.profiles
  {
    var once := EnsureAll(s, accounts, site, year);
    var twice := EnsureAll(once, accounts, site, year).profiles;
    EnsureAllProfiles(s, accounts, site, year);
    EnsureAllProfiles(once, accounts, site, year);
    forall key | key in twice || key in once.profiles
      ensures key in twice && key in once.profiles && twice[key] == once.profiles[key]
    {
      if AsksForProfile(accounts, key) {
      }
    }
  }

  /** Running the loop on its own result changes nothing. */
  lemma EnsureAllIdempotent(s: DbState, accounts: seq<Account>, site: int, year: int)
    requires DistinctUsernames(accounts)
    ensures EnsureAll(EnsureAll(s, accounts, site, year), accounts, site, year) == EnsureAll(s, accounts, site, year)
  {
    var once := EnsureAll(s, accounts, site, year);
    UsersIdempotent(s, accounts, site, year);
    ProfilesIdempotent(s, accounts, site, year);
    EnsureAllGrants(s, accounts, site, year);
    EnsureAllGrants(once, accounts, site, year);
  }

  lemma AccountsDistinct()
    ensures DistinctUsernames(Accounts)
  {
  }

  /** What the command's own table gives: microvanuta is a staff superuser and
      curator with no profile written, microstudent a student with an INVITED
      profile admitted this year. */
  lemma DemoAccounts(s: DbState, site: int, year: int)
    ensures var r := EnsureAll(s, Accounts, site, year);
      r.users["microvanuta"] == User("microvanuta@example.com", "Micro", "Vanuta", true, true, OtherGender, true, Some("Keklol123")) &&
      r.users["microstudent"] == User("microstudent@example.com", "Micro", "Student", false, false, OtherGender, true, Some("Keklol123")) &&
      r.grants == s.grants + {Grant("microvanuta", site, Curator), Grant("microstudent", site, Student)} &&
      r.profiles == s.profiles[("microstudent", Invited) := Profile(Normal, year, "", "")]
  {
    var a0 := Accounts[0];
    var a1 := Accounts[1];
    assert Accounts[..1] == [a0];
    assert [a0][..0] == [];
    assert RoleGrants(a0.username, site, a0.roles) == {Grant("microvanuta", site, Curator)};
    assert RoleGrants(a1.username, site, a1.roles) == {Grant("microstudent", site, Student)};
  }

  /** The database of the command, updated in place. */
  class Db {
    var users: map<string, User>
    var grants: set<Grant>
    var profiles: map<(string, StudentType), Profile>

    constructor (s: DbState)
      ensures State() == s
    {
      users := s.users;
      grants := s.grants;
      profiles := s.profiles;
    }

    function State(): DbState
      reads this
    {
      DbState(users, grants, profiles)
    }

    /** `Command.handle`, given the current site and year; returns the number
      it reports as created or updated. */
    method Handle(site: int, year: int) returns (createdOrUpdated: nat)
      modifies this
      ensures State() == EnsureAll(old(State()), Accounts, site, year)
      ensures createdOrUpdated == |Accounts|
    {
      createdOrUpdated := 0;
      var i := 0;
      while i < |Accounts|
        invariant 0 <= i <= |Accounts|
        invariant State() == EnsureAll(old(State()), Accounts[..i], site, year)
        invariant createdOrUpdated == i
      {
        var account := Accounts[i];
        ghost var before := State();
        assert Accounts[..i + 1][..i] == Accounts[..i];
        assert Accounts[..i + 1][i] == account;
        var defaults := User(account.email, account.firstName, account.lastName, account.isStaff,
                             account.isSuperuser, OtherGender, true, None);
        var user := if account.username in users then users[account.username].(email := defaults.email,
          firstName := defaults.firstName, lastName := defaults.lastName, isStaff := defaults.isStaff,
          isSuperuser := defaults.isSuperuser, gender := defaults.gender, isActive := defaults.isActive)
          else defaults;
        user := user.(password := Some(Password));
        users := users[account.username := user];
        var j := 0;
        var grantsBefore := grants;
        while j < |account.roles|
          invariant 0 <= j <= |account.roles|
          invariant grants == grantsBefore + RoleGrants(account.username, site, account.roles[..j])
          invariant users == before.users[account.username := ExpectedUser(account)] && profiles == before.profiles
        {
          grants := grants + {Grant(account.username, site, account.roles[j])};
          j := j + 1;
        }
        assert account.roles[..j] == account.roles;
        if account.createProfile {
          var profileType := if account.profileType.Some? then account.profileType.value else Invited;
          profiles := profiles[(account.username, profileType) := Profile(Normal, year, "", "")];
        }
        createdOrUpdated := createdOrUpdated + 1;
        i := i + 1;
      }
      assert Accounts[..i] == Accounts;
    }
  }
}
