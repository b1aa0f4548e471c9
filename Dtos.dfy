/** Response objects exchanged between the server and the client:
    `GeneralResponse` and `LoginWithCookieResponse`, the latter both as the
    settable object and as the value it holds, with its JSON form. */
module Dtos {
  import opened Wrappers

  /** The request bodies of register and sign-in, and a row of the user list. */
  datatype Register = Register(fullname: string, email: string, password: string)
  datatype Login = Login(email: string, password: string)
  datatype ManageUser = ManageUser(userId: int, name: string, email: string, role: string)

  /** `GeneralResponse(bool Flag, string Message)`. */
  datatype GeneralResponse = GeneralResponse(flag: bool, message: string)

  /** The state of a `LoginWithCookieResponse` object, field by field. */
  datatype LoginResponse = LoginResponse(
    refreshToken: Option<string>,
    token: string,
    message: string,
    success: bool,
    roles: Option<seq<string>>)

  /** The property initialisers: Token and Message empty, Success false, the rest null. */
  const Default := LoginResponse(None, "", "", false, None)

  /** `new LoginWithCookieResponse { Success = false, Message = message }`. */
  function Failed(message: string): (r: LoginResponse)
    ensures !r.success && r.message == message && r.token == "" && r.roles.None? && r.refreshToken.None?
  {
    Default.(message := message)
  }

  /** The JSON body: every public property except `RefreshToken`, which is
      excluded from serialisation; `Flag` appears beside `Success`. */
  datatype LoginJson = LoginJson(
    token: string,
    message: string,
    success: bool,
    flag: bool,
    roles: Option<seq<string>>)

  function Serialize(v: LoginResponse): (j: LoginJson)
    ensures j.flag == j.success == v.success
  {
    LoginJson(v.token, v.message, v.success, v.success, v.roles)
  }

  /** Reading the body back sets the properties in document order, so the
      later `flag` member is what `Success` finally holds; `RefreshToken`
      stays null. */
  function Deserialize(j: LoginJson): LoginResponse
  {
    LoginResponse(None, j.token, j.message, j.flag, j.roles)
  }

  /** The refresh token never travels in the body: two responses that differ
      only in it serialise identically, and a round trip drops it. */
  lemma RefreshTokenNotSerialized(v: LoginResponse, other: Option<string>)
    ensures Serialize(v) == Serialize(v.(refreshToken := other))
    ensures Deserialize(Serialize(v)) == v.(refreshToken := None)
  {
  }

  class LoginWithCookieResponse {
    var refreshToken: Option<string>
    var token: string
    var message: string
    var success: bool
    var roles: Option<seq<string>>

    function Value(): LoginResponse
      reads this
    {
      LoginResponse(refreshToken, token, message, success, roles)
    }

    constructor ()
      ensures Value() == Default
    {
      refreshToken, token, message, success, roles := None, "", "", false, None;
    }

    /** The `Flag` getter is an alias of `Success`. */
    function Flag(): (b: bool)
      reads this
      ensures b == success
    {
      success
    }

    /** The `Flag` setter writes `Success` and nothing else. */
    method SetFlag(b: bool)
      modifies this
      ensures Value() == old(Value()).(success := b)
      ensures Flag() == b
    {
      success := b;
    }
  }
}
