/** The client's account service (`UserAccountService`): it posts register,
    login and refresh requests and keeps the access token and the roles in
    the browser's `localStorage`, here a key-to-value map. The HTTP reply of
    each call is a parameter. */
module AccountService {
  import opened Wrappers
  import Text
  import opened Dtos

  const TokenKey := "authToken"
  const RolesKey := "userRoles"
  const StatusUnauthorized := 401

  /** What `ReadFromJsonAsync` makes of a body: the JSON literal `null`, a
      value, or a parse error (a `JsonException`). */
  datatype Body<T> = NullBody | Value(value: T) | Malformed(error: string)

  /** One HTTP call: a response, or the exception the transport throws. */
  datatype HttpOutcome<T> = Response(status: int, body: Body<T>) | TransportError(message: string)

  /** `HttpResponseMessage.IsSuccessStatusCode`. */
  predicate IsSuccessStatusCode(status: int)
  {
    200 <= status <= 299
  }

  /** The quoted items of the array, in order. */
  function Quoted(items: seq<string>): (q: seq<string>)
    ensures |q| == |items| && forall i :: 0 <= i < |items| ==> q[i] == "\"" + items[i] + "\""
  {
    seq(|items|, i requires 0 <= i < |items| => "\"" + items[i] + "\"")
  }

  /** `JsonSerializer.Serialize` of a string array, without escaping. */
  function JsonStringArray(items: seq<string>): (r: string)
    ensures |r| >= 2 && r[0] == '[' && r[|r| - 1] == ']'
  {
    "[" + Text.Join(Quoted(items), ",") + "]"
  }

  /** No roles serialise as `[]`. */
  lemma JsonEmptyArray()
    ensures JsonStringArray([]) == "[]"
  {
  }

  /** One more role adds a comma and that role, quoted, before the closing
      bracket; with `JsonEmptyArray` and `JsonSingleRole` this fixes the
      value for every list of roles. */
  lemma JsonAppendRole(items: seq<string>, role: string)
    requires items != []
    ensures var before := JsonStringArray(items);
      JsonStringArray(items + [role]) == before[..|before| - 1] + ",\"" + role + "\"]"
  {
    var q := Quoted(items);
    assert Quoted(items + [role]) == q + ["\"" + role + "\""];
    Text.JoinAppend(q, "\"" + role + "\"", ",");
    var before := JsonStringArray(items);
    assert before == "[" + Text.Join(q, ",") + "]";
    assert before[..|before| - 1] == "[" + Text.Join(q, ",");
  }

  /** The roles a sign-in reply carries for a single role. */
  lemma JsonSingleRole(role: string)
    ensures JsonStringArray([role]) == "[\"" + role + "\"]"
  {
    assert Quoted([role]) == ["\"" + role + "\""];
  }

  /** A reply whose token the service keeps: successful, with a non-empty token. */
  predicate KeepsToken(resp: LoginResponse)
  {
    resp.success && resp.token != []
  }

  /** Roles that are non-null and non-empty (`Roles != null && Roles.Any()`). */
  predicate HasRoles(resp: LoginResponse)
  {
    resp.roles.Some? && |resp.roles.value| > 0
  }

  /** The storage after a sign-in reply: the token key is written only for a
      kept token, the roles key only besides it and only for present roles,
      and no other key changes. */
  function SignInStorage(storage: map<string, string>, resp: LoginResponse): (s: map<string, string>)
    ensures KeepsToken(resp) ==> TokenKey in s && s[TokenKey] == resp.token
    ensures KeepsToken(resp) && HasRoles(resp) ==> RolesKey in s && s[RolesKey] == JsonStringArray(resp.roles.value)
    ensures !KeepsToken(resp) ==> s == storage
    ensures !HasRoles(resp) ==> (RolesKey in s <==> RolesKey in storage) && (RolesKey in s ==> s[RolesKey] == storage[RolesKey])
    ensures forall k :: k != TokenKey && k != RolesKey ==> (k in s <==> k in storage) && (k in s ==> s[k] == storage[k])
  {
    if KeepsToken(resp) then
      var withToken := storage[TokenKey := resp.token];
      if HasRoles(resp) then withToken[RolesKey := JsonStringArray(resp.roles.value)] else withToken
    else storage
  }

  /** The reply of `RefreshTokenAsync`, every failure (an exception included)
      turned into an unsuccessful response with its own message. */
  function RefreshResponse(post: HttpOutcome<LoginJson>): (r: LoginResponse)
    ensures post.TransportError? ==> r == Failed("Token refresh failed: " + post.message)
    ensures post.Response? && !IsSuccessStatusCode(post.status) ==> r == Failed("Failed to refresh token")
    ensures post.Response? && IsSuccessStatusCode(post.status) && post.body.Malformed? ==>
      r == Failed("Token refresh failed: " + post.body.error)
    ensures post.Response? && IsSuccessStatusCode(post.status) && post.body.NullBody? ==>
      r == Failed("Invalid refresh token response")
    ensures r.success <==> post.Response? && IsSuccessStatusCode(post.status) && post.body.Value? && post.body.value.flag
    ensures r.success ==> r == Deserialize(post.body.value)
  {
    match post
    case TransportError(message) => Failed("Token refresh failed: " + message)
    case Response(status, body) =>
      if !IsSuccessStatusCode(status) then Failed("Failed to refresh token")
      else match body
        case Malformed(error) => Failed("Token refresh failed: " + error)
        case NullBody => Failed("Invalid refresh token response")
        case Value(v) => Deserialize(v)
  }

  class UserAccountService {
    /** The browser's `localStorage`. */
    var storage: map<string, string>

    constructor (initial: map<string, string>)
      ensures storage == initial
    {
      storage := initial;
    }

    /** Register: the server's reply, or a failure for a bad status or a null
        body; the service stores nothing. */
    method CreateAsync(user: Register, post: HttpOutcome<GeneralResponse>) returns (r: Result<GeneralResponse>)
      ensures post.TransportError? ==> r == Throws(post.message)
      ensures post.Response? && !IsSuccessStatusCode(post.status) ==>
        r == Ok(GeneralResponse(false, "Error occurred during registration"))
      ensures post.Response? && IsSuccessStatusCode(post.status) && post.body.NullBody? ==>
        r == Ok(GeneralResponse(false, "Failed to process registration response"))
      ensures post.Response? && IsSuccessStatusCode(post.status) && post.body.Malformed? ==> r == Throws(post.body.error)
      ensures post.Response? && IsSuccessStatusCode(post.status) && post.body.Value? ==> r == Ok(post.body.value)
    {
      if post.TransportError? {
        return Throws(post.message);
      }
      if !IsSuccessStatusCode(post.status) {
        return Ok(GeneralResponse(false, "Error occurred during registration"));
      }
      match post.body
      case Malformed(error) => return Throws(error);
      case NullBody => return Ok(GeneralResponse(false, "Failed to process registration response"));
      case Value(v) => return Ok(v);
    }

    /** Sign-in: failures store nothing; a reply with a kept token stores it,
        and its roles when there are any. */
    method SignInAsync(user: Login, post: HttpOutcome<LoginJson>) returns (r: Result<LoginResponse>)
      modifies this
      ensures post.TransportError? ==> r == Throws(post.message) && storage == old(storage)
      ensures post.Response? && !IsSuccessStatusCode(post.status) ==>
        && r == Ok(Failed(if post.status == StatusUnauthorized then "Invalid username or password"
                          else "An error occurred during login"))
        && storage == old(storage)
      ensures post.Response? && IsSuccessStatusCode(post.status) && post.body.Malformed? ==>
        r == Throws(post.body.error) && storage == old(storage)
      ensures post.Response? && IsSuccessStatusCode(post.status) && post.body.NullBody? ==>
        r == Ok(Failed("Invalid server response")) && storage == old(storage)
      ensures post.Response? && IsSuccessStatusCode(post.status) && post.body.Value? ==>
        r == Ok(Deserialize(post.body.value)) && storage == SignInStorage(old(storage), r.value)
    {
      if post.TransportError? {
        return Throws(post.message);
      }
      if !IsSuccessStatusCode(post.status) {
        var message := if post.status == StatusUnauthorized then "Invalid username or password"
                       else "An error occurred during login";
        return Ok(Failed(message));
      }
      if post.body.Malformed? {
        return Throws(post.body.error);
      }
      if post.body.NullBody? {
        return Ok(Failed("Invalid server response"));
      }
      var response := Deserialize(post.body.value);
      if response.success && !Text.IsNullOrEmpty(Some(response.token)) {
        storage := storage[TokenKey := response.token];
        if response.roles.Some? && |response.roles.value| > 0 {
          storage := storage[RolesKey := JsonStringArray(response.roles.value)];
        }
      }
      return Ok(response);
    }

    /** Refresh: the token key is overwritten only by a successful reply with
        a non-empty token; every failure leaves the storage as it was. */
    method RefreshTokenAsync(post: HttpOutcome<LoginJson>) returns (r: LoginResponse)
      modifies this
      ensures r == RefreshResponse(post)
      ensures KeepsToken(r) ==> storage == old(storage)[TokenKey := r.token]
      ensures !KeepsToken(r) ==> storage == old(storage)
    {
      match post
      case TransportError(message) =>
        return Failed("Token refresh failed: " + message);
      case Response(status, body) =>
        if !IsSuccessStatusCode(status) {
          return Failed("Failed to refresh token");
        }
        match body
        case Malformed(error) => return Failed("Token refresh failed: " + error);
        case NullBody => return Failed("Invalid refresh token response");
        case Value(v) =>
          var response := Deserialize(v);
          if response.success && !Text.IsNullOrEmpty(Some(response.token)) {
            storage := storage[TokenKey := response.token];
          }
          return response;
    }

    /** Sign-out removes both keys, keeps every other one and reports success. */
    method SignOutAsync() returns (ok: bool)
      modifies this
      ensures ok
      ensures storage == old(storage) - {TokenKey, RolesKey}
      ensures TokenKey !in storage && RolesKey !in storage
    {
      storage := storage - {TokenKey};
      storage := storage - {RolesKey};
      return true;
    }
  }
}
