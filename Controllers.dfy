/** The generic CRUD controller (`GenericController<T>`) shared by the entity
    controllers: the authorization policy of each action, applied before the
    action runs, and each action's argument guard. A request that passes both
    becomes exactly one repository call; the call's result is what `Ok` wraps (an `OkObjectResult`). */
module Controllers {
  import opened Wrappers

  const AdminRole := "Admin"

  /** Who is calling: nobody, or a signed-in user with role claims. */
  datatype Caller = AnonymousCaller | Authenticated(roles: seq<string>)

  datatype Action<T> = GetAll | Delete(id: int) | GetById(id: int) | Add(model: Option<T>) | Update(model: Option<T>)

  /** The repository method an action ends in, with its argument. */
  datatype RepositoryCall<T> = CallGetAll | CallDeleteById(id: int) | CallGetById(id: int) | CallInsert(item: T) | CallUpdate(item: T)

  /** `[AllowAnonymous]`, the class's `[Authorize]`, or `[Authorize(Roles = r)]`. */
  datatype Policy = AllowAnonymous | RequireAuthenticated | RequireRole(role: string)

  /** Challenge (401) for no user, Forbid (403) for a user without the role. */
  datatype Outcome<T> = Challenge | Forbid | BadRequest(message: string) | OkObject(call: RepositoryCall<T>)

  /** The policy in force for each action: reads are public, writes need Admin
      (on top of the class-level requirement to be signed in). */
  function PolicyOf<T>(action: Action<T>): (p: Policy)
    ensures action.GetAll? || action.GetById? <==> p == AllowAnonymous
    ensures action.Delete? || action.Add? || action.Update? <==> p == RequireRole(AdminRole)
  {
    match action
    case GetAll => AllowAnonymous
    case GetById(_) => AllowAnonymous
    case Delete(_) => RequireRole(AdminRole)
    case Add(_) => RequireRole(AdminRole)
    case Update(_) => RequireRole(AdminRole)
  }

  /** The class default, which applies to an action without its own attribute. */
  const ClassDefault := RequireAuthenticated

  /** The class-level `[Authorize]` and an action's own attribute must both
      pass, except under `[AllowAnonymous]`, which skips the class default.
      Since every other action requires the Admin role, which already implies
      being signed in, the class default decides no request. */
  lemma ClassDefaultDecidesNothing<T>(action: Action<T>, caller: Caller)
    ensures PolicyOf(action) != AllowAnonymous ==>
      ((Authorize<T>(ClassDefault, caller) == None && Authorize<T>(PolicyOf(action), caller) == None)
        <==> Authorize<T>(PolicyOf(action), caller) == None)
    ensures PolicyOf(action) != AllowAnonymous && Authorize<T>(PolicyOf(action), caller) == None ==>
      Authorize<T>(ClassDefault, caller) == None
  {
  }

  /** The authorization result of a policy: None lets the request through. */
  function Authorize<T>(policy: Policy, caller: Caller): (r: Option<Outcome<T>>)
    ensures policy == AllowAnonymous ==> r == None
    ensures policy != AllowAnonymous && caller.AnonymousCaller? ==> r == Some(Challenge)
    ensures policy.RequireRole? && caller.Authenticated? ==> (r == None <==> policy.role in caller.roles)
    ensures r.Some? ==> r.value.Challenge? || r.value.Forbid?
  {
    match policy
    case AllowAnonymous => None
    case RequireAuthenticated => if caller.AnonymousCaller? then Some(Challenge) else None
    case RequireRole(role) =>
      if caller.AnonymousCaller? then Some(Challenge)
      else if role in caller.roles then None
      else Some(Forbid)
  }

  /** One request: the policy first, then the action's guard, then the repository call. */
  function Handle<T>(caller: Caller, action: Action<T>): (r: Outcome<T>)
    ensures (action.Delete? || action.GetById?) && action.id <= 0 && r.BadRequest? ==> r.message == "Invalid request sent"
    ensures (action.Add? || action.Update?) && action.model.None? && r.BadRequest? ==> r.message == "Invalid data sent"
    ensures r.OkObject? <==> Authorize<T>(PolicyOf(action), caller).None? && ArgumentsValid(action)
    ensures r.OkObject? && action.GetAll? ==> r.call == CallGetAll
    ensures r.OkObject? && action.Delete? ==> r.call == CallDeleteById(action.id)
    ensures r.OkObject? && action.GetById? ==> r.call == CallGetById(action.id)
    ensures r.OkObject? && action.Add? ==> r.call == CallInsert(action.model.value)
    ensures r.OkObject? && action.Update? ==> r.call == CallUpdate(action.model.value)
  {
    match Authorize<T>(PolicyOf(action), caller)
    case Some(denied) => denied
    case None =>
      match action
      case GetAll => OkObject(CallGetAll)
      case Delete(id) => if id <= 0 then BadRequest("Invalid request sent") else OkObject(CallDeleteById(id))
      case GetById(id) => if id <= 0 then BadRequest("Invalid request sent") else OkObject(CallGetById(id))
      case Add(model) => if model.None? then BadRequest("Invalid data sent") else OkObject(CallInsert(model.value))
      case Update(model) => if model.None? then BadRequest("Invalid data sent") else OkObject(CallUpdate(model.value))
  }

  /** The guards: a positive id, a present model. */
  predicate ArgumentsValid<T>(action: Action<T>)
  {
    match action
    case GetAll => true
    case Delete(id) => id > 0
    case GetById(id) => id > 0
    case Add(model) => model.Some?
    case Update(model) => model.Some?
  }

  /** Anyone may list and read: anonymous reads with a positive id always
      reach the repository. */
  lemma ReadsArePublic<T>(caller: Caller, id: int)
    ensures Handle<T>(caller, GetAll) == OkObject(CallGetAll)
    ensures id > 0 ==> Handle<T>(caller, GetById(id)) == OkObject(CallGetById(id))
    ensures id <= 0 ==> Handle<T>(caller, GetById(id)) == BadRequest("Invalid request sent")
  {
  }

  /** A write reaches the repository only for a caller holding the Admin
      role: an anonymous caller is challenged and any other user forbidden,
      whatever the arguments. */
  lemma WritesNeedAdmin<T>(caller: Caller, action: Action<T>)
    requires action.Delete? || action.Add? || action.Update?
    ensures caller.AnonymousCaller? ==> Handle(caller, action) == Challenge
    ensures caller.Authenticated? && AdminRole !in caller.roles ==> Handle(caller, action) == Forbid
    ensures Handle(caller, action).OkObject? ==> caller.Authenticated? && AdminRole in caller.roles
  {
  }

  /** For an Admin, the guards alone decide: a bad id or a null model is a
      BadRequest that touches no repository. */
  lemma AdminGuards<T>(roles: seq<string>, id: int, model: Option<T>)
    requires AdminRole in roles
    ensures Handle(Authenticated(roles), Action<T>.Delete(id)) ==
      (if id <= 0 then BadRequest("Invalid request sent") else OkObject(CallDeleteById(id)))
    ensures Handle(Authenticated(roles), Add(model)) ==
      (if model.None? then BadRequest("Invalid data sent") else OkObject(CallInsert(model.value)))
    ensures Handle(Authenticated(roles), Update(model)) ==
      (if model.None? then BadRequest("Invalid data sent") else OkObject(CallUpdate(model.value)))
  {
  }
}
