# Employee management system: accounts, sessions and the HR screens

This project is a Dafny model of the core of an employee-management
system. The system has three parts:

- **The ASP.NET server.** `UserAccountRepository` registers users and
  bootstraps the Admin role. It signs users in with a JWT access token and a
  `refreshToken` cookie, rotates refresh tokens, and administers user roles.
  `GenericController<T>` puts an authorization policy and an argument guard
  in front of each CRUD action.
- **The Blazor client.** `AccessTokenProvider` holds the access token in
  memory. `UserAccountService` talks to the server and keeps the token and the
  roles in `localStorage`. `CustomHttpHandler` resends a request once after a
  401. `CustomAuthenticationStateProvider` turns the token's claims into the
  principal the UI sees. `LoginWithCookieResponse` is the reply object with its
  JSON form, and `AllState` is the view selector.
- **The React screens.** The employee to-do list, the manager's queries and
  vacation screens, the mock login page, the employee directory, the query
  form with attachments, and the employee calendar.

Each core file is one module:

- Objects whose fields the source updates become classes, with `modifies`
  clauses on their methods. These are the repository's tables, the token
  holder, the account service's storage, the handler's wire log, each React
  component's state and the view selector.
- Decisions and transformations become functions on datatypes. These are the
  sign-in and refresh checks, the list `map`/`filter` calls, date
  formatting, search and validation.
- Each operation has a partner lemma: a round trip, an invariant it
  preserves, a count identity it keeps, or a reference definition it meets.

The shared modules are `Wrappers` (Option and Result), `Seqs` (filter,
subsequence, first match and sums with their lemmas), `Text` (JavaScript and
.NET string operations over `seq<char>`), `Claims` (the claim vocabulary
shared by server and client) and `Dtos` (the request and response objects).

The outside world is passed in as parameters:

- HTTP replies and the network;
- password hashing and verification, JWT writing and reading, and the random
  refresh-token value;
- the clock (`Date.now()`, `new Date()`, the ISO timestamp of now);
- the month length and the weekday of the first of the month.

Exceptions the source would throw, such as a dereferenced `null`, a `Claim`
built from `null`, or `Remove(null)`, become `Result.Throws`.

## Model

| member | source | states |
|---|---|---|
| AccountRepository.FindUserByEmail | ServerLibrary/Repositories/Implementations/UserAccountRepository.cs:149-150 | The user found is in the table and has the email up to case; none is found exactly when no user's email matches ignoring case. |
| AccountRepository.TokenClaims | ServerLibrary/Repositories/Implementations/UserAccountRepository.cs:127-133 | The access token carries exactly four claims, in this order: name identifier = the user id in decimal, name, email, and role. |
| AccountRepository.AssignedRole | ServerLibrary/Repositories/Implementations/UserAccountRepository.cs:44-67 | A registrant gets Admin while no Admin role exists, otherwise User. The role row is created with the next id exactly when no role of that name exists, and an existing row is reused. |
| AccountRepository.BootstrapAdmin | ServerLibrary/Repositories/Implementations/UserAccountRepository.cs:44-67 | The first registrant creates and receives the Admin role; the next registrant creates and receives User. |
| AccountRepository.DecideSignIn | ServerLibrary/Repositories/Implementations/UserAccountRepository.cs:73-84 | An unknown email gives "User not found", a password that does not verify gives "Email or Password not valid", and a missing link or role gives "User role not found". Sign-in is granted exactly when all checks pass, to the user found by email, with the name of the role that user's link points to. |
| AccountRepository.UpsertOneRow | ServerLibrary/Repositories/Implementations/UserAccountRepository.cs:91-100 | Storing a refresh token keeps one row per user, and the user ends with exactly one row, which holds the new token. A row is added exactly when the user had none, and other users' rows are unchanged. |
| AccountRepository.Upsert | ServerLibrary/Repositories/Implementations/UserAccountRepository.cs:91-100 | Overwrites the user's refresh row or appends one; UpsertOneRow and StoredTokenFindsUser state its properties. |
| AccountRepository.StoredTokenFindsUser | ServerLibrary/Repositories/Implementations/UserAccountRepository.cs:91-112 | After sign-in stores a fresh token, looking that token up (the cookie) finds the signed-in user's row. |
| AccountRepository.DecideRefresh | ServerLibrary/Repositories/Implementations/UserAccountRepository.cs:160-183 | A null or empty cookie gives "Refresh token is required", and a cookie matching no row gives "Invalid refresh token". For the first row holding the cookie, a missing owner gives "User not found", a missing link "User role not found" and a missing role "Role not found". Otherwise that row is rotated for its owner, with the name of the role the owner's link points to. |
| AccountRepository.TokenRow | ServerLibrary/Repositories/Implementations/UserAccountRepository.cs:164-165 | The row found holds the token and no earlier row does; none is found exactly when no row holds it. |
| AccountRepository.RotationInvalidatesOldToken | ServerLibrary/Repositories/Implementations/UserAccountRepository.cs:186-203 | Rotation keeps the row's owner and keeps the stored tokens distinct. The old token then matches no row, so presenting it again is refused with "Invalid refresh token". |
| AccountRepository.Rotated | ServerLibrary/Repositories/Implementations/UserAccountRepository.cs:190 | Overwrites the token of the matched row; RotationInvalidatesOldToken states its properties. |
| AccountRepository.ManageUsersShape | ServerLibrary/Repositories/Implementations/UserAccountRepository.cs:224-236 | The user list succeeds exactly when every user's entry succeeds. It then has one entry per user, in store order. |
| AccountRepository.ManageUserOfContents | ServerLibrary/Repositories/Implementations/UserAccountRepository.cs:224-236 | An entry exists exactly when the user has a link whose role exists. It carries the user's id, name and email and that role's name. |
| AccountRepository.ManageUserOf | ServerLibrary/Repositories/Implementations/UserAccountRepository.cs:226-235 | The entry of one user, or the NullReference of a dereferenced missing link or role; ManageUserOfContents states its contents. |
| AccountRepository.ManageUsers | ServerLibrary/Repositories/Implementations/UserAccountRepository.cs:222-236 | The entries in store order, or the first exception; ManageUsersShape states its shape. |
| AccountRepository.UsersListing | ServerLibrary/Repositories/Implementations/UserAccountRepository.cs:214-239 | Null for an empty user or role table, otherwise ManageUsers; GetUsers is proved equal to it. |
| AccountRepository.UserAccountRepository.CreateAsync | ServerLibrary/Repositories/Implementations/UserAccountRepository.cs:22-68 | A null model gives "Model is empty" and a taken email (ignoring case) gives "User with this email already exists."; neither changes anything. Otherwise the user is appended with the hashed password and the next id, linked to the assigned role, and "Account created!" is returned. The table invariants are kept. |
| AccountRepository.UserAccountRepository.AddUser | ServerLibrary/Repositories/Implementations/UserAccountRepository.cs:151-156 | Saving a user appends it, advances the user identity, and leaves the other tables alone. |
| AccountRepository.UserAccountRepository.AddRole | ServerLibrary/Repositories/Implementations/UserAccountRepository.cs:151-156 | Saving a role appends it and advances the role identity. |
| AccountRepository.UserAccountRepository.AddUserRole | ServerLibrary/Repositories/Implementations/UserAccountRepository.cs:151-156 | Saving a link appends it with the next link id, and the one-role-per-user invariant is kept. |
| AccountRepository.UserAccountRepository.SignInAsync | ServerLibrary/Repositories/Implementations/UserAccountRepository.cs:69-122 | A null model or any failed check returns the check's message and changes nothing. On success, the reply has the JWT of the four claims, "Login successful", success, and the single role. The refresh row is upserted and the cookie set to the new token. The invariants are kept. |
| AccountRepository.UserAccountRepository.StoreRefreshToken | ServerLibrary/Repositories/Implementations/UserAccountRepository.cs:91-100 | The user's row is overwritten in place or a row is added; only the refresh table and its identity change. |
| AccountRepository.UserAccountRepository.PresentCookie | ServerLibrary/Repositories/Implementations/UserAccountRepository.cs:160 | The next refresh reads exactly the presented cookie. |
| AccountRepository.UserAccountRepository.RefreshTokenAsync | ServerLibrary/Repositories/Implementations/UserAccountRepository.cs:157-212 | Each failed check returns its message and changes nothing. Otherwise the cookie's row is rotated to the new token, the cookie is reset, and "Token refreshed successfully" is returned with a new JWT and the role. |
| AccountRepository.UserAccountRepository.RotateRefreshToken | ServerLibrary/Repositories/Implementations/UserAccountRepository.cs:186-191 | Only the matched row gets the new token, every other field is unchanged, and the tables stay valid. |
| AccountRepository.UserAccountRepository.GetUsers | ServerLibrary/Repositories/Implementations/UserAccountRepository.cs:214-239 | The loop's result equals the listing: null for an empty user or role table, the first exception of a user without a link or role, otherwise the entries. |
| AccountRepository.UserAccountRepository.UpdateUser | ServerLibrary/Repositories/Implementations/UserAccountRepository.cs:241-248 | A missing role name or a user without a link throws and changes nothing. Otherwise exactly that user's link gets the role's id. |
| AccountRepository.UserAccountRepository.GetRoles | ServerLibrary/Repositories/Implementations/UserAccountRepository.cs:250 | Returns the role table. |
| AccountRepository.UserAccountRepository.DeleteUser | ServerLibrary/Repositories/Implementations/UserAccountRepository.cs:252-258 | A missing id throws and changes nothing. Otherwise exactly the first user with that id is removed (ids are unique), and every other user remains. |
| AccountRepository.RemoveUserKeepsTable | ServerLibrary/Repositories/Implementations/UserAccountRepository.cs:252-258 | Removing one user keeps ids fresh and emails distinct, drops exactly that id, and keeps every other user. |
| Dtos.Failed | BaseLibrary/DTOs/LoginWithCookieResponse.cs:10-16 | A failure reply has success false, the given message, an empty token, and null roles and refresh token. |
| Dtos.Serialize | BaseLibrary/DTOs/LoginWithCookieResponse.cs:7-16 | The JSON body's `flag` and `success` both equal `Success`. |
| Dtos.RefreshTokenNotSerialized | BaseLibrary/DTOs/LoginWithCookieResponse.cs:7-8 | The refresh token never reaches the body: replies differing only in it serialise alike, and a round trip clears it. |
| Dtos.Deserialize | BaseLibrary/DTOs/LoginWithCookieResponse.cs:7-16 | Binds the JSON body with `flag` read last and no refresh token; RefreshTokenNotSerialized states the round trip. |
| Dtos.LoginWithCookieResponse.constructor | BaseLibrary/DTOs/LoginWithCookieResponse.cs:10-16 | A new object holds the property initialisers. |
| Dtos.LoginWithCookieResponse.Flag | BaseLibrary/DTOs/LoginWithCookieResponse.cs:15 | `Flag` reads `Success`. |
| Dtos.LoginWithCookieResponse.SetFlag | BaseLibrary/DTOs/LoginWithCookieResponse.cs:15 | Setting `Flag` sets `Success` and nothing else. |
| TokenProvider.AccessTokenProvider.constructor | ClientLibrary/Services/Implementations/AccessTokenProvider.cs:8 | The slot starts out null. |
| TokenProvider.AccessTokenProvider.SetTokenAsync | ClientLibrary/Services/Implementations/AccessTokenProvider.cs:10-14 | The slot then holds exactly the given value. |
| TokenProvider.AccessTokenProvider.GetTokenAsync | ClientLibrary/Services/Implementations/AccessTokenProvider.cs:16-19 | Returns the held value. |
| TokenProvider.AccessTokenProvider.RemoveTokenAsync | ClientLibrary/Services/Implementations/AccessTokenProvider.cs:21-25 | The slot is null afterwards. |
| AccountService.JsonStringArray | ClientLibrary/Services/Implementations/UserAccountService.cs:63-68 | The stored roles value is a bracketed JSON array; JsonEmptyArray, JsonSingleRole and JsonAppendRole fix its value for every list. |
| AccountService.JsonEmptyArray | ClientLibrary/Services/Implementations/UserAccountService.cs:63-68 | No roles are stored as `[]`. |
| AccountService.JsonAppendRole | ClientLibrary/Services/Implementations/UserAccountService.cs:63-68 | One more role adds a comma and that role, in quotes, before the closing bracket, so the value is the quoted roles separated by commas. |
| AccountService.JsonSingleRole | ClientLibrary/Services/Implementations/UserAccountService.cs:63-68 | A single role is stored as `["role"]`. |
| AccountService.SignInStorage | ClientLibrary/Services/Implementations/UserAccountService.cs:57-68 | The token key is written only for a successful reply with a non-empty token. The roles key is written only alongside it, and only for non-empty roles. No other key changes. |
| AccountService.RefreshResponse | ClientLibrary/Services/Implementations/UserAccountService.cs:74-112 | Each failure gives its own message. The reply is successful exactly when a 2xx status carries a body whose `flag` is true, and it is then that body. |
| AccountService.UserAccountService.CreateAsync | ClientLibrary/Services/Implementations/UserAccountService.cs:26-35 | A non-2xx status gives "Error occurred during registration" and a null body "Failed to process registration response". Otherwise the server's reply is returned, and transport and parse errors propagate. |
| AccountService.UserAccountService.SignInAsync | ClientLibrary/Services/Implementations/UserAccountService.cs:37-72 | A 401 gives "Invalid username or password", another failing status "An error occurred during login", and a null body "Invalid server response"; none of these store anything. A reply with a body updates the storage as `SignInStorage` says. |
| AccountService.UserAccountService.RefreshTokenAsync | ClientLibrary/Services/Implementations/UserAccountService.cs:74-112 | The reply is `RefreshResponse`, with no exception escaping. The token key is overwritten only by a successful reply with a non-empty token. |
| AccountService.UserAccountService.SignOutAsync | ClientLibrary/Services/Implementations/UserAccountService.cs:114-129 | Both keys are removed, every other key is kept, and true is returned. |
| HttpHandler.Bearer | ClientLibrary/Helpers/CustomHttpHandler.cs:22-35 | The header value is "Bearer " followed by exactly the token. |
| HttpHandler.IsAuthEndpoint | ClientLibrary/Helpers/CustomHttpHandler.cs:11-15 | An address containing "login", "register" or "refresh-token"; the SendAsync contract states that such requests pass through. |
| HttpHandler.CustomHttpHandler.Send | ClientLibrary/Helpers/CustomHttpHandler.cs:17 | One request goes on the wire, and its response is the transport's answer to it. |
| HttpHandler.CustomHttpHandler.GetReshToken | ClientLibrary/Helpers/CustomHttpHandler.cs:40-48 | A failed refresh returns "" and leaves the provider alone. A successful one stores its token in the provider, even an empty one, and returns it. |
| HttpHandler.CustomHttpHandler.SendAsync | ClientLibrary/Helpers/CustomHttpHandler.cs:9-38 | Auth endpoints and non-401 replies pass through, with one send and nothing else changed. After a 401 the request is resent once: with the held token when it had no header, else with a non-empty refreshed token. Otherwise the first reply is returned. |
| Claims.FirstOfType | ClientLibrary/Helpers/CustomAuthenticationStateProvider.cs:61-65 | The claim found is in the list and has the type; none is found exactly when no claim has it. |
| Claims.FirstOfTypeAt | ClientLibrary/Helpers/CustomAuthenticationStateProvider.cs:61-64 | A claim with no earlier claim of its type is what `FirstOrDefault` finds for that type. |
| AuthState.SetClaimPrincipal | ClientLibrary/Helpers/CustomAuthenticationStateProvider.cs:42-53 | No email gives a principal without identities, and a null among the other three throws. Otherwise the result is one authenticated identity with the four claims in order. |
| AuthState.ClaimsOf | ClientLibrary/Helpers/CustomAuthenticationStateProvider.cs:61-65 | The claims are read exactly when all four types are present, and each value read comes from a claim of the token. A missing type throws a null reference. |
| AuthState.DecryptToken | ClientLibrary/Helpers/CustomAuthenticationStateProvider.cs:55-66 | An empty token gives the empty claims, a reader exception propagates, and otherwise the result is the claim lookups. |
| AuthState.ClaimsRoundTrip | ClientLibrary/Helpers/CustomAuthenticationStateProvider.cs:55-66 | Reading the server's four claims gives back the id, name, email and role, and the principal built from them carries exactly those claims. |
| AuthState.TokenClaimsLookups | ClientLibrary/Helpers/CustomAuthenticationStateProvider.cs:61-64 | Each lookup by claim type finds the claim the server wrote for that type. |
| Claims.ClaimTypesDistinct | ServerLibrary/Repositories/Implementations/UserAccountRepository.cs:129-132 | The four claim types are different URIs. |
| AuthState.DecryptGeneratedToken | ClientLibrary/Helpers/CustomAuthenticationStateProvider.cs:55-66 | For a reader that returns the written claims among any others the token carries (issuer, audience, expiry), each written claim before any other of its type, decrypting the generated token gives back the user's id, name and email and the role. |
| AuthState.AuthenticationStateOf | ClientLibrary/Helpers/CustomAuthenticationStateProvider.cs:12-23 | A null or whitespace token is anonymous; any principal built otherwise has one authenticated identity. |
| AuthState.CustomAuthenticationStateProvider.GetAuthenticationStateAsync | ClientLibrary/Helpers/CustomAuthenticationStateProvider.cs:12-23 | The state is that of the held token. |
| AuthState.CustomAuthenticationStateProvider.UpdateAuthenticationState | ClientLibrary/Helpers/CustomAuthenticationStateProvider.cs:25-40 | A non-empty token is stored, then decoded, and its principal announced; an exception leaves it stored and announces nothing. An empty token clears the provider and announces an empty principal. |
| Controllers.PolicyOf | Server/Controllers/GenericController.cs:10-47 | Reads are anonymous, and exactly the writes require the Admin role. |
| Controllers.ClassDefaultDecidesNothing | Server/Controllers/GenericController.cs:10-47 | The class `[Authorize]` decides no request: `[AllowAnonymous]` skips it, and for every other action the Admin role requirement implies it, so requiring both passes exactly when the action's own policy passes. |
| Controllers.Authorize | Server/Controllers/GenericController.cs:10 | Anonymous policies let everyone through. Other policies challenge an anonymous caller, and a role policy passes exactly the callers holding the role. |
| Controllers.ArgumentsValid | Server/Controllers/GenericController.cs:19-47 | A positive id for delete and read, a non-null model for add and update; Handle and AdminGuards state how it decides. |
| Controllers.Handle | Server/Controllers/GenericController.cs:13-47 | A request reaches the repository exactly when authorization passes and the guard holds (a positive id or a present model), and then with the action's own argument. A failed guard gives that action's message. |
| Controllers.ReadsArePublic | Server/Controllers/GenericController.cs:13-31 | Anyone may list, and anyone may read a positive id; id ≤ 0 is "Invalid request sent". |
| Controllers.WritesNeedAdmin | Server/Controllers/GenericController.cs:17-47 | A write by an anonymous caller is challenged, one by a non-Admin is forbidden, and one that reaches the repository came from an Admin. |
| Controllers.AdminGuards | Server/Controllers/GenericController.cs:17-47 | For an Admin the guards alone decide delete, add and update. |
| ApplicationState.AllState.constructor | Client/ApplicationState/AllState.cs:23-26 | The state starts on no view, with every `Show*` false and no subscriber. |
| ApplicationState.AllState.ShowCount | Client/ApplicationState/AllState.cs:29-40 | Exactly one of the twelve `Show*` values holds, unless the view is None, when none does. |
| ApplicationState.AllState.ShowGeneralDepartment | Client/ApplicationState/AllState.cs:29 | Holds exactly when the view is GeneralDepartment; ShowCount states that at most one `Show*` holds and the GeneralDepartmentClicked contract that it holds after a click. |
| ApplicationState.AllState.ShowDepartment | Client/ApplicationState/AllState.cs:30 | Holds exactly when the view is Department; ShowCount states that at most one `Show*` holds and the DepartmentClicked contract that it holds after a click. |
| ApplicationState.AllState.ShowBranch | Client/ApplicationState/AllState.cs:31 | Holds exactly when the view is Branch; ShowCount states that at most one `Show*` holds and the BranchClicked contract that it holds after a click. |
| ApplicationState.AllState.ShowCountry | Client/ApplicationState/AllState.cs:32 | Holds exactly when the view is Country; ShowCount states that at most one `Show*` holds and the CountryClicked contract that it holds after a click. |
| ApplicationState.AllState.ShowCity | Client/ApplicationState/AllState.cs:33 | Holds exactly when the view is City; ShowCount states that at most one `Show*` holds and the CityClicked contract that it holds after a click. |
| ApplicationState.AllState.ShowTown | Client/ApplicationState/AllState.cs:34 | Holds exactly when the view is Town; ShowCount states that at most one `Show*` holds and the TownClicked contract that it holds after a click. |
| ApplicationState.AllState.ShowUser | Client/ApplicationState/AllState.cs:35 | Holds exactly when the view is User; ShowCount states that at most one `Show*` holds and the UserClicked contract that it holds after a click. |
| ApplicationState.AllState.ShowEmployee | Client/ApplicationState/AllState.cs:36 | Holds exactly when the view is Employee; ShowCount states that at most one `Show*` holds and the EmployeeClicked contract that it holds after a click. |
| ApplicationState.AllState.ShowVacation | Client/ApplicationState/AllState.cs:37 | Holds exactly when the view is Vacation; ShowCount states that at most one `Show*` holds and the VacationClicked contract that it holds after a click. |
| ApplicationState.AllState.ShowOvertime | Client/ApplicationState/AllState.cs:38 | Holds exactly when the view is Overtime; ShowCount states that at most one `Show*` holds and the OvertimeClicked contract that it holds after a click. |
| ApplicationState.AllState.ShowDoctor | Client/ApplicationState/AllState.cs:39 | Holds exactly when the view is Doctor; ShowCount states that at most one `Show*` holds and the DoctorClicked contract that it holds after a click. |
| ApplicationState.AllState.ShowSanction | Client/ApplicationState/AllState.cs:40 | Holds exactly when the view is Sanction; ShowCount states that at most one `Show*` holds and the SanctionClicked contract that it holds after a click. |
| ApplicationState.AllState.Subscribe | Client/ApplicationState/AllState.cs:23 | Adding a handler adds one subscriber. |
| ApplicationState.AllState.Unsubscribe | Client/ApplicationState/AllState.cs:23 | Removing a handler removes one subscriber. |
| ApplicationState.AllState.Select | Client/ApplicationState/AllState.cs:43-47 | The view is set and every subscriber is invoked once. |
| ApplicationState.AllState.GeneralDepartmentClicked | Client/ApplicationState/AllState.cs:43-47 | Selects GeneralDepartment and raises the event. |
| ApplicationState.AllState.DepartmentClicked | Client/ApplicationState/AllState.cs:50-54 | Selects Department and raises the event. |
| ApplicationState.AllState.BranchClicked | Client/ApplicationState/AllState.cs:57-61 | Selects Branch and raises the event. |
| ApplicationState.AllState.CountryClicked | Client/ApplicationState/AllState.cs:64-68 | Selects Country and raises the event. |
| ApplicationState.AllState.CityClicked | Client/ApplicationState/AllState.cs:71-75 | Selects City and raises the event. |
| ApplicationState.AllState.TownClicked | Client/ApplicationState/AllState.cs:78-82 | Selects Town and raises the event. |
| ApplicationState.AllState.UserClicked | Client/ApplicationState/AllState.cs:85-89 | Selects User and raises the event. |
| ApplicationState.AllState.EmployeeClicked | Client/ApplicationState/AllState.cs:92-96 | Selects Employee and raises the event. |
| ApplicationState.AllState.VacationClicked | Client/ApplicationState/AllState.cs:99-103 | Selects Vacation and raises the event. |
| ApplicationState.AllState.OvertimeClicked | Client/ApplicationState/AllState.cs:106-110 | Selects Overtime and raises the event. |
| ApplicationState.AllState.DoctorClicked | Client/ApplicationState/AllState.cs:113-117 | Selects Doctor and raises the event. |
| ApplicationState.AllState.SanctionClicked | Client/ApplicationState/AllState.cs:120-124 | Selects Sanction and raises the event. |
| Text.TrimEmptyIffBlank | EMS-Vite-React/src/components/EmployeeTodoList.tsx:100-105 | `!s.trim()` holds exactly for strings made only of whitespace. |
| Text.JoinSplit | EMS-Vite-React/src/components/EmployeeTodoList.tsx:115-116 | Joining the parts of a `split` with the separator gives back the string. |
| Text.Initials | EMS-Vite-React/src/components/QueriesSection.tsx:83-89 | The initials are the upper-cased characters that start a space-separated word. The vacation and directory screens use the same helper. |
| Text.NatToStringValue | EMS-Vite-React/src/components/EmployeeCalendar.tsx:74-78 | `String(n)` writes only decimal digits with no leading zero, and they read back as n. |
| Text.PadStart2Shape | EMS-Vite-React/src/components/EmployeeCalendar.tsx:74-78 | Padding ends with the string and fills zeros in front of it up to length two. |
| TodoList.PriorityColorsDistinct | EMS-Vite-React/src/components/EmployeeTodoList.tsx:156-167 | The three priorities get three distinct, non-empty classes, and any other string gets "". |
| TodoList.PriorityColor | EMS-Vite-React/src/components/EmployeeTodoList.tsx:156-167 | The badge class of a priority; PriorityColorsDistinct states its values. |
| TodoList.ReformatIsoDate | EMS-Vite-React/src/components/EmployeeTodoList.tsx:115-116 | A "YYYY-MM-DD" due date becomes "DD/MM/YYYY". |
| TodoList.ReformatDueDate | EMS-Vite-React/src/components/EmployeeTodoList.tsx:115-116 | Splits at "-" and joins the parts in reverse with "/", a missing part reading "undefined"; ReformatIsoDate states it for an ISO date. |
| TodoList.Toggled | EMS-Vite-React/src/components/EmployeeTodoList.tsx:138-142 | The tasks with that id have `completed` flipped, and all others are kept. |
| TodoList.ToggleInvolution | EMS-Vite-React/src/components/EmployeeTodoList.tsx:138-142 | Toggling twice restores the list, and toggling changes nothing but `completed`. |
| TodoList.WithoutId | EMS-Vite-React/src/components/EmployeeTodoList.tsx:150 | No task with that id is left, and every other task is kept in order, with each copy of a repeated task kept. |
| TodoList.CountsConsistent | EMS-Vite-React/src/components/EmployeeTodoList.tsx:173-175 | Completed plus pending is the number of tasks, and high priority counts only pending tasks. |
| TodoList.CompletedCount | EMS-Vite-React/src/components/EmployeeTodoList.tsx:173 | The number of completed tasks; CountsConsistent relates the three counts. |
| TodoList.PendingCount | EMS-Vite-React/src/components/EmployeeTodoList.tsx:174 | The number of pending tasks; CountsConsistent relates the three counts. |
| TodoList.HighPriorityCount | EMS-Vite-React/src/components/EmployeeTodoList.tsx:175 | The number of pending high-priority tasks; CountsConsistent relates the three counts. |
| TodoList.FilteredTodos | EMS-Vite-React/src/components/EmployeeTodoList.tsx:169-171 | Shows all tasks, or exactly the incomplete ones in order. |
| TodoList.EmployeeTodoList.constructor | EMS-Vite-React/src/components/EmployeeTodoList.tsx:86-97 | The initial component state. |
| TodoList.EmployeeTodoList.AddTodo | EMS-Vite-React/src/components/EmployeeTodoList.tsx:99-136 | A blank title or a missing date changes nothing and names the problem. Otherwise one new, incomplete task with the reformatted date goes in front, the form is reset and the dialog closed. |
| TodoList.EmployeeTodoList.ToggleTodo | EMS-Vite-React/src/components/EmployeeTodoList.tsx:138-142 | The list becomes `Toggled` and the rest of the state is kept. |
| TodoList.EmployeeTodoList.ConfirmDelete | EMS-Vite-React/src/components/EmployeeTodoList.tsx:144-146 | Remembers the id, nothing else. |
| TodoList.EmployeeTodoList.DeleteTodo | EMS-Vite-React/src/components/EmployeeTodoList.tsx:148-154 | With a deletion pending, the list becomes `WithoutId` of the remembered id, the pending id is cleared, and the toast "Task deleted successfully" is raised. Without one, nothing changes and no toast is raised. |
| TodoList.EmployeeTodoList.ToggleShowCompleted | EMS-Vite-React/src/components/EmployeeTodoList.tsx:183 | Flips the filter and nothing else. |
| Queries.StatusColorsDistinct | EMS-Vite-React/src/components/QueriesSection.tsx:91-102 | The three statuses get three distinct, non-empty classes, and any other string gets "". |
| Queries.StatusColor | EMS-Vite-React/src/components/QueriesSection.tsx:91-102 | The badge class of a status; StatusColorsDistinct states its values. |
| Queries.Responded | EMS-Vite-React/src/components/QueriesSection.tsx:112-118 | The queries with that id get the status and the response; all others are unchanged. |
| Queries.RespondedIdempotent | EMS-Vite-React/src/components/QueriesSection.tsx:112-118 | Answering twice equals answering once, and an unknown id changes nothing. |
| Queries.CountsPartition | EMS-Vite-React/src/components/QueriesSection.tsx:128-130 | Pending, approved and rejected add up to the number of queries. |
| Queries.PendingCount | EMS-Vite-React/src/components/QueriesSection.tsx:128 | The number of pending queries; CountsPartition and RespondSettlesQuery state its properties. |
| Queries.ApprovedCount | EMS-Vite-React/src/components/QueriesSection.tsx:129 | The number of approved queries; CountsPartition states its property. |
| Queries.RejectedCount | EMS-Vite-React/src/components/QueriesSection.tsx:130 | The number of rejected queries; CountsPartition states its property. |
| Queries.RespondSettlesQuery | EMS-Vite-React/src/components/QueriesSection.tsx:112-130 | After an answer, the pending queries are exactly the pending ones with another id. |
| Queries.QueriesSection.constructor | EMS-Vite-React/src/components/QueriesSection.tsx:79-81 | The initial component state. |
| Queries.QueriesSection.OpenResponse | EMS-Vite-React/src/components/QueriesSection.tsx:211-219 | Selects the query and clears the text. |
| Queries.QueriesSection.SetResponse | EMS-Vite-React/src/components/QueriesSection.tsx:241 | The text becomes what was typed. |
| Queries.QueriesSection.HandleRespond | EMS-Vite-React/src/components/QueriesSection.tsx:104-126 | A blank response changes nothing. Otherwise the list is `Responded`, the text is cleared, the dialog closed, and the toast names the status in lower case. |
| Vacations.WithStatus | EMS-Vite-React/src/components/VacationSection.tsx:89-109 | The requests with that id get the status and keep every other field; the rest are kept. |
| Vacations.StatusChangeKeepsDays | EMS-Vite-React/src/components/VacationSection.tsx:111-113 | A status change leaves the total of days unchanged. |
| Vacations.ApproveMoves | EMS-Vite-React/src/components/VacationSection.tsx:89-113 | After approving, the pending card counts exactly the pending requests with another id, and the approved card the approved ones together with those of that id; so approved never falls, pending never rises, and the approved request's buttons are gone. |
| Vacations.RejectMoves | EMS-Vite-React/src/components/VacationSection.tsx:100-113 | After rejecting, the pending and approved cards count exactly their requests with another id, so neither rises, and the rejected request's buttons are gone. |
| Vacations.PendingCount | EMS-Vite-React/src/components/VacationSection.tsx:111 | The number of pending requests; ApproveMoves and RejectMoves state how it moves. |
| Vacations.ApprovedCount | EMS-Vite-React/src/components/VacationSection.tsx:112 | The number of approved requests; ApproveMoves and RejectMoves state how it moves. |
| Vacations.TotalDays | EMS-Vite-React/src/components/VacationSection.tsx:113 | The sum of the requests' days; StatusChangeKeepsDays states that answers keep it. |
| Vacations.ActionsOffered | EMS-Vite-React/src/components/VacationSection.tsx:201 | The buttons show exactly for a pending request; ApproveMoves and RejectMoves state that they disappear. |
| Vacations.VacationSection.constructor | EMS-Vite-React/src/components/VacationSection.tsx:66 | The initial requests. |
| Vacations.VacationSection.HandleApprove | EMS-Vite-React/src/components/VacationSection.tsx:89-98 | The list becomes `WithStatus(…, "Approved")`, with the approval toast. |
| Vacations.VacationSection.HandleReject | EMS-Vite-React/src/components/VacationSection.tsx:100-109 | The list becomes `WithStatus(…, "Rejected")`, with the rejection toast. |
| Login.FindByEmail | EMS-Vite-React/src/components/LoginPage.tsx:58 | Finds the first user with exactly that email, and none exactly when no user has it. |
| Login.NewUser | EMS-Vite-React/src/components/LoginPage.tsx:82-96 | The new user has the next id, the form's email and name, the Employee role, "New Employee" as position, and today's date as start date. |
| Login.RegisterKeepsTable | EMS-Vite-React/src/components/LoginPage.tsx:82-98 | Pushing the new user keeps ids equal to positions + 1 and emails distinct. |
| Login.LoginFindsRegistered | EMS-Vite-React/src/components/LoginPage.tsx:54-100 | After registering, logging in with that email finds the new user. |
| Login.LoginUnique | EMS-Vite-React/src/components/LoginPage.tsx:58 | With distinct emails, the user found is the only one with that email. |
| Login.LoginPage.constructor | EMS-Vite-React/src/components/LoginPage.tsx:15-37 | The page starts with the two seeded users, whose table satisfies the invariant. |
| Login.LoginPage.HandleLogin | EMS-Vite-React/src/components/LoginPage.tsx:54-64 | The error is cleared, then the found user is logged in, else "Invalid email or password"; the password is not checked. |
| Login.LoginPage.HandleRegister | EMS-Vite-React/src/components/LoginPage.tsx:66-100 | Missing fields and a taken email each set their message and change nothing. Otherwise the new user is pushed and logged in, and the table invariant is kept. |
| Employees.FilteredEmployees | EMS-Vite-React/src/components/EmployeesSection.tsx:90-95 | Exactly the employees whose name, email or department contains the query ignoring case, in table order, with each copy of a repeated match kept. |
| Employees.Matches | EMS-Vite-React/src/components/EmployeesSection.tsx:91-95 | The search test; EmptyQueryKeepsAll, QueryCaseInsensitive and LongerQueryNarrows state its properties. |
| Employees.EmptyQueryKeepsAll | EMS-Vite-React/src/components/EmployeesSection.tsx:90-95 | An empty search shows everyone. |
| Employees.QueryCaseInsensitive | EMS-Vite-React/src/components/EmployeesSection.tsx:90-95 | The query's case does not matter. |
| Employees.LongerQueryNarrows | EMS-Vite-React/src/components/EmployeesSection.tsx:90-95 | A query containing another matches only employees the shorter one matches. |
| QueryForm.Rejection | EMS-Vite-React/src/components/EmployeeQueryForm.tsx:42-53 | A file is rejected exactly when it is invalid. The type is checked before the size. |
| QueryForm.EveryFileAccounted | EMS-Vite-React/src/components/EmployeeQueryForm.tsx:28-59 | Each chosen file is kept or reported by exactly one toast. |
| QueryForm.PdfIcon | EMS-Vite-React/src/components/EmployeeQueryForm.tsx:65-70 | A PDF gets the document icon. |
| QueryForm.ImageIcon | EMS-Vite-React/src/components/EmployeeQueryForm.tsx:65-70 | The three image types get the picture icon. |
| QueryForm.WordIcon | EMS-Vite-React/src/components/EmployeeQueryForm.tsx:65-70 | A Word file gets the memo icon. |
| QueryForm.OpenXmlIcon | EMS-Vite-React/src/components/EmployeeQueryForm.tsx:65-70 | An OpenXML Word file does not get the paper clip. |
| QueryForm.AcceptedIcons | EMS-Vite-React/src/components/EmployeeQueryForm.tsx:65-70 | No accepted type gets the paper clip. |
| QueryForm.FileIcon | EMS-Vite-React/src/components/EmployeeQueryForm.tsx:65-70 | The icon of a file by its type; PdfIcon, ImageIcon, WordIcon, OpenXmlIcon and AcceptedIcons state its values. |
| QueryForm.EmployeeQueryForm.constructor | EMS-Vite-React/src/components/EmployeeQueryForm.tsx:19-25 | The empty form, with no files. |
| QueryForm.EmployeeQueryForm.HandleFileChange | EMS-Vite-React/src/components/EmployeeQueryForm.tsx:28-59 | No selection changes nothing. Otherwise the valid files are appended in order, and each invalid one raises its toast. |
| QueryForm.EmployeeQueryForm.RemoveFile | EMS-Vite-React/src/components/EmployeeQueryForm.tsx:61-63 | Removes exactly the file at that position; an index out of range changes nothing. |
| QueryForm.EmployeeQueryForm.SetFormData | EMS-Vite-React/src/components/EmployeeQueryForm.tsx:111-171 | The form becomes the edited one, and the attachments are kept. |
| QueryForm.EmployeeQueryForm.HandleSubmit | EMS-Vite-React/src/components/EmployeeQueryForm.tsx:80-94 | A missing type, subject or message gives the required-fields toast. A complete form gives the success toast and returns to the previous page. |
| Calendar.FormatDateLayout | EMS-Vite-React/src/components/EmployeeCalendar.tsx:74-78 | A day's key is two digits, "/", two digits of the 1-based month, "/", then the year. |
| Calendar.FormatDateInjective | EMS-Vite-React/src/components/EmployeeCalendar.tsx:74-78 | Different days of a month have different keys. |
| Calendar.FormatDate | EMS-Vite-React/src/components/EmployeeCalendar.tsx:74-78 | The day key; FormatDateLayout and FormatDateInjective state its layout and that it separates days. |
| Calendar.EventsForDate | EMS-Vite-React/src/components/EmployeeCalendar.tsx:80-82 | Exactly the events filed under that key, in order, with each copy of a repeated event kept. |
| Calendar.TypeColorsDistinct | EMS-Vite-React/src/components/EmployeeCalendar.tsx:92-105 | The four event types get four distinct, non-empty classes, and any other string gets "". |
| Calendar.TypeColor | EMS-Vite-React/src/components/EmployeeCalendar.tsx:92-105 | The badge class of an event type; TypeColorsDistinct states its values. |
| Calendar.PreviewOf | EMS-Vite-React/src/components/EmployeeCalendar.tsx:136-146 | A cell shows the first two events and "+N more" exactly when there are more than two, with N the rest. |
| Calendar.PreviousMonth | EMS-Vite-React/src/components/EmployeeCalendar.tsx:84-86 | Goes back one month, from January to December of the previous year. |
| Calendar.NextMonth | EMS-Vite-React/src/components/EmployeeCalendar.tsx:88-90 | Goes forward one month, from December to January of the next year. |
| Calendar.MonthNavigationInverse | EMS-Vite-React/src/components/EmployeeCalendar.tsx:84-90 | Back then forward, or forward then back, returns to the same month, and forward advances the month count by one. |
| Calendar.EmployeeCalendar.constructor | EMS-Vite-React/src/components/EmployeeCalendar.tsx:57-59 | Opens on today's month with no date selected. |
| Calendar.EmployeeCalendar.GoToPreviousMonth | EMS-Vite-React/src/components/EmployeeCalendar.tsx:84-86 | The shown month becomes `PreviousMonth`. |
| Calendar.EmployeeCalendar.GoToNextMonth | EMS-Vite-React/src/components/EmployeeCalendar.tsx:88-90 | The shown month becomes `NextMonth`. |
| Calendar.EmployeeCalendar.SelectDate | EMS-Vite-React/src/components/EmployeeCalendar.tsx:130 | Selects the clicked key. |
| Calendar.EmployeeCalendar.Days | EMS-Vite-React/src/components/EmployeeCalendar.tsx:106-150 | The grid is `firstDay` blanks, then the run of cells of the days 1 to `daysInMonth`, in order. Each day has its key, its today flag and its events. |
| Calendar.EmployeeCalendar.DayCellFor | EMS-Vite-React/src/components/EmployeeCalendar.tsx:117-124 | A numbered cell has its key, the events filed under that key, and is today exactly when the date is today's. |
| Calendar.DayRunCells | EMS-Vite-React/src/components/EmployeeCalendar.tsx:116-124 | Cell d - 1 of the day run belongs to day d. |
| Calendar.OneToday | EMS-Vite-React/src/components/EmployeeCalendar.tsx:120-122 | At most one day of the grid is marked as today. |

## Left out

- Persistence and `async`: Entity Framework and `SaveChangesAsync` become in-memory tables. Identity values become counters, and each `await` runs to completion. Concurrent requests are not modelled.
- Cryptography and randomness: BCrypt hashing and verification, JWT signing and reading, and `RandomNumberGenerator` are function parameters. The refresh token is a parameter, required to be non-empty and not yet stored. This stands for the 64 random bytes being new.
- Cookie options (HttpOnly, Secure, SameSite, expiry) and token lifetimes: only the cookie's value is modelled.
- The database context, `CustomUserClaims`, `GeneralResponse`, `Constants` and `UserSession` are not part of this model. Their shapes are taken as the repository uses them, with null defaults and the role names "Admin" and "User". `DeleteUser` therefore does not cascade to links or refresh rows.
- Controllers.Handle: `[ApiController]` (GenericController.cs:9) makes ASP.NET Core answer a missing or unreadable body on add or update with its own validation 400 before the action runs. The model gives the guard's "Invalid data sent" message for every missing model instead; model binding is not modelled.
- `AuthenticationController` and the entity controllers are not part of this model beyond the generic controller they inherit.
- The client's `GetUsers`, `UpdateUser`, `GetRoles` and `DeleteUser` (UserAccountService.cs:131-171): they are thin HTTP wrappers with no logic of their own.
- The sign-out `catch` (UserAccountService.cs:125-128): only JavaScript interop failures reach it, and they are outside the model.
- AuthState.CustomAuthenticationStateProvider.GetAuthenticationStateAsync: the null check at CustomAuthenticationStateProvider.cs:19 is not modelled. `DecryptToken` either throws or returns claims, so that branch is never taken.
- JSON: escaping in `JsonSerializer` is not modelled; role strings are written unescaped.
- Case mapping, as in `ToLower`/`toLowerCase`/`toUpperCase`, is ASCII only; Unicode case folding is left out.
- Strings are sequences of Unicode code points, while JavaScript and .NET strings are UTF-16 code units. Text.Initials therefore takes a name's first code point where `n[0]` would give a lone surrogate for a name starting outside the Basic Multilingual Plane.
- Login.LoginPage: one object stands for the module's whole lifetime across mounts. In the source the user table `mockUsers` is module-level and survives a remount, while `error` and the form fields are per-mount state that a remount resets; the model does not separate the two.
- Floating point: `formatFileSize` (EmployeeQueryForm.tsx:72-78) divides by 1024 and rounds to two decimals, so it is left out.
- The JavaScript `Date` object: `getDaysInMonth`, `getFirstDayOfMonth`, `new Date()` and `Date.now()` are parameters. Month arithmetic is written out with the carry `new Date(year, month ± 1)` performs. Calendar.PreviousMonth and Calendar.NextMonth do not model that `new Date` reads the years 0 to 99 as 1900 to 1999: from December of year 99 the page shows January 2000, while the model gives January of year 100.
- Login.NewUser: the start date is the date part of a given ISO timestamp; reading the clock is left out.
- Rendering: JSX layout, dialogs, toast descriptions and styling beyond the class names chosen by the color helpers. Toasts are modelled by their titles, as the value an operation returns.
- The event's subscribers are modelled by their count only; what a handler does is left out. ApplicationState.AllState.Unsubscribe therefore requires a subscribed handler: `Action -= h` for a handler that is not subscribed is a no-op in C#, which a count cannot tell apart from removing one.
- QueryForm.OpenXmlIcon: the OpenXML Word type is stated to get an icon other than the paper clip, not the memo icon itself. This is weaker than the code, where "word" occurs in the type and the memo is chosen.
- QueryForm.AcceptedIcons: likewise states "not the paper clip" for every accepted type rather than naming each icon. The three lemmas above it name the icons for PDF, the images and Word.
