/** The mock sign-in page (`LoginPage`): a module-level array of users that
    registration pushes onto, an error message, and the users handed to
    `onLogin`. The clock behind the start date of a new employee is a
    parameter (the ISO timestamp of now). */
module Login {
  import opened Wrappers
  import opened Seqs
  import Text

  datatype Role = Employee | Manager

  datatype EmployeeData = EmployeeData(dob: string, branch: string, department: string, city: string,
                                       position: string, phone: string, startDate: string)

  datatype User = User(id: int, email: string, name: string, role: Role, employeeData: Option<EmployeeData>)

  /** The register form. */
  datatype RegisterData = RegisterData(name: string, email: string, password: string, dob: string,
                                       branch: string, department: string, city: string, phone: string)

  /** The two seeded users. */
  const SeedUsers: seq<User> := [
    User(1, "manager@company.com", "Admin Manager", Manager, None),
    User(2, "sarah.j@company.com", "Sarah Johnson", Employee,
         Some(EmployeeData("1990-05-15", "Main Office", "Engineering", "New York", "Senior Developer",
                           "+1 (555) 123-4567", "2022-01-15")))]

  /** The user at index i has id i + 1, which is what `length + 1` relies on. */
  predicate IdsAreIndices(users: seq<User>)
  {
    forall i :: 0 <= i < |users| ==> users[i].id == i + 1
  }

  predicate EmailsDistinct(users: seq<User>)
  {
    forall i, j :: 0 <= i < j < |users| ==> users[i].email != users[j].email
  }

  /** `mockUsers.find(u => u.email === email)`, as an index: exact and case-sensitive. */
  function FindByEmail(users: seq<User>, email: string): (r: Option<nat>)
    ensures r.Some? ==> r.value < |users| && users[r.value].email == email
    ensures r.Some? ==> forall j :: 0 <= j < r.value ==> users[j].email != email
    ensures r.None? <==> forall j :: 0 <= j < |users| ==> users[j].email != email
  {
    FirstIndex(users, (u: User) => u.email == email)
  }

  /** The user a successful registration creates. */
  function NewUser(users: seq<User>, data: RegisterData, nowIso: string): (u: User)
    ensures u.id == |users| + 1 && u.email == data.email && u.name == data.name && u.role == Employee
    ensures u.employeeData.Some? && u.employeeData.value.position == "New Employee"
    ensures u.employeeData.value.startDate == Text.Split(nowIso, 'T')[0]
  {
    User(|users| + 1, data.email, data.name, Employee,
         Some(EmployeeData(data.dob, data.branch, data.department, data.city, "New Employee",
                           data.phone, Text.Split(nowIso, 'T')[0])))
  }

  /** Appending the new user to a table whose ids are its indices and whose
      emails are distinct keeps both, when the email was not taken. */
  lemma RegisterKeepsTable(users: seq<User>, data: RegisterData, nowIso: string)
    requires IdsAreIndices(users) && EmailsDistinct(users)
    requires FindByEmail(users, data.email).None?
    ensures IdsAreIndices(users + [NewUser(users, data, nowIso)])
    ensures EmailsDistinct(users + [NewUser(users, data, nowIso)])
  {
    var after := users + [NewUser(users, data, nowIso)];
    forall i, j | 0 <= i < j < |after| ensures after[i].email != after[j].email {
      if j == |users| {
        assert after[i] == users[i];
      } else {
        assert after[i] == users[i] && after[j] == users[j];
      }
    }
  }

  /** Registering and then signing in with the same email finds the new
      user, and only that one. */
  lemma LoginFindsRegistered(users: seq<User>, data: RegisterData, nowIso: string)
    requires FindByEmail(users, data.email).None?
    ensures FindByEmail(users + [NewUser(users, data, nowIso)], data.email) == Some(|users|)
  {
    var after := users + [NewUser(users, data, nowIso)];
    assert after[|users|].email == data.email;
    assert forall j :: 0 <= j < |users| ==> after[j] == users[j];
  }

  /** With distinct emails, the user a login finds is the only one with that email. */
  lemma LoginUnique(users: seq<User>, email: string, k: nat)
    requires EmailsDistinct(users)
    requires k < |users| && users[k].email == email
    ensures FindByEmail(users, email) == Some(k)
  {
  }

  class LoginPage {
    var mockUsers: seq<User>
    var error: string
    /** The users handed to `onLogin`, in order. */
    var loggedIn: seq<User>

    ghost predicate Valid()
      reads this
    {
      IdsAreIndices(mockUsers) && EmailsDistinct(mockUsers)
    }

    constructor ()
      ensures mockUsers == SeedUsers && error == "" && loggedIn == []
      ensures Valid()
    {
      mockUsers, error, loggedIn := SeedUsers, "", [];
    }

    /** `handleLogin`: the error is cleared, then the first user with exactly
        that email is logged in; the password is not looked at. */
    method HandleLogin(loginEmail: string, loginPassword: string)
      modifies this
      ensures mockUsers == old(mockUsers)
      ensures var found := FindByEmail(old(mockUsers), loginEmail);
        && (found.Some? ==> error == "" && loggedIn == old(loggedIn) + [old(mockUsers)[found.value]])
        && (found.None? ==> error == "Invalid email or password" && loggedIn == old(loggedIn))
    {
      error := "";
      var user := FindByEmail(mockUsers, loginEmail);
      if user.Some? {
        loggedIn := loggedIn + [mockUsers[user.value]];
      } else {
        error := "Invalid email or password";
      }
    }

    /** `handleRegister`: the error is cleared; a missing name, email or
        password, or an email already present, sets the error and changes
        nothing else; otherwise the new employee is pushed and logged in. */
    method HandleRegister(data: RegisterData, nowIso: string)
      requires Valid()
      modifies this
      ensures Valid()
      ensures data.name == [] || data.email == [] || data.password == [] ==>
        && error == "Please fill in all required fields"
        && mockUsers == old(mockUsers) && loggedIn == old(loggedIn)
      ensures data.name != [] && data.email != [] && data.password != [] && FindByEmail(old(mockUsers), data.email).Some? ==>
        && error == "Email already registered"
        && mockUsers == old(mockUsers) && loggedIn == old(loggedIn)
      ensures data.name != [] && data.email != [] && data.password != [] && FindByEmail(old(mockUsers), data.email).None? ==>
        && error == ""
        && mockUsers == old(mockUsers) + [NewUser(old(mockUsers), data, nowIso)]
        && loggedIn == old(loggedIn) + [NewUser(old(mockUsers), data, nowIso)]
    {
      error := "";
      if data.name == [] || data.email == [] || data.password == [] {
        error := "Please fill in all required fields";
        return;
      }
      if FindByEmail(mockUsers, data.email).Some? {
        error := "Email already registered";
        return;
      }
      var newUser := NewUser(mockUsers, data, nowIso);
      RegisterKeepsTable(mockUsers, data, nowIso);
      mockUsers := mockUsers + [newUser];
      loggedIn := loggedIn + [newUser];
    }
  }
}
