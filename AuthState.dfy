/** The client's authentication state (`CustomAuthenticationStateProvider`):
    it reads the held access token, pulls the four user claims out of it and
    builds the principal the UI sees. Reading a JWT (`ReadJwtToken`) is a
    parameter from the token string to its claim list or an exception. */
module AuthState {
  import opened Wrappers
  import Text
  import opened Claims
  import opened TokenProvider
  import AccountRepository

  /** `CustomUserClaims(Id, Name, Email, Role)`; the default is all null. */
  datatype CustomUserClaims = CustomUserClaims(
    id: Option<string>, name: Option<string>, email: Option<string>, role: Option<string>)

  const EmptyClaims := CustomUserClaims(None, None, None, None)

  datatype ClaimsIdentity = ClaimsIdentity(claims: seq<Claim>, authenticationType: Option<string>)
  {
    /** An identity is authenticated when it names an authentication type. */
    predicate IsAuthenticated()
    {
      authenticationType.Some? && authenticationType.value != []
    }
  }

  datatype ClaimsPrincipal = ClaimsPrincipal(identities: seq<ClaimsIdentity>)

  /** `new ClaimsPrincipal(new ClaimsIdentity())`: one identity, no claims, not authenticated. */
  const Anonymous := ClaimsPrincipal([ClaimsIdentity([], None)])

  /** `new ClaimsPrincipal()`: no identity at all. */
  const NoPrincipal := ClaimsPrincipal([])

  const AuthenticationType := "JwtAuth"

  /** `SetClaimPrincipal`: no principal without an email; otherwise one
      authenticated identity with the four claims, where a null value makes
      the `Claim` constructor throw. */
  function SetClaimPrincipal(claims: CustomUserClaims): (r: Result<ClaimsPrincipal>)
    ensures claims.email.None? ==> r == Ok(NoPrincipal)
    ensures claims.email.Some? && (claims.id.None? || claims.name.None? || claims.role.None?) ==> r == Throws(ArgumentNull)
    ensures claims.email.Some? && claims.id.Some? && claims.name.Some? && claims.role.Some? ==>
      && r.Ok? && |r.value.identities| == 1
      && r.value.identities[0].IsAuthenticated()
      && r.value.identities[0].claims ==
           [Claim(NameIdentifier, claims.id.value), Claim(Name, claims.name.value),
            Claim(Email, claims.email.value), Claim(Role, claims.role.value)]
  {
    if claims.email.None? then Ok(NoPrincipal)
    else if claims.id.None? || claims.name.None? || claims.role.None? then Throws(ArgumentNull)
    else Ok(ClaimsPrincipal([ClaimsIdentity(
      [Claim(NameIdentifier, claims.id.value), Claim(Name, claims.name.value),
       Claim(Email, claims.email.value), Claim(Role, claims.role.value)],
      Some(AuthenticationType))]))
  }

  /** The four lookups of `DecryptToken` over a token's claims: the first
      claim of each type; a missing one is dereferenced and throws. */
  function ClaimsOf(claims: seq<Claim>): (r: Result<CustomUserClaims>)
    ensures r.Ok? <==> FirstOfType(claims, NameIdentifier).Some? && FirstOfType(claims, Name).Some?
                       && FirstOfType(claims, Email).Some? && FirstOfType(claims, Role).Some?
    ensures r.Ok? ==> r.value.id.Some? && r.value.name.Some? && r.value.email.Some? && r.value.role.Some?
    ensures r.Ok? ==> Claim(NameIdentifier, r.value.id.value) in claims && Claim(Name, r.value.name.value) in claims
                      && Claim(Email, r.value.email.value) in claims && Claim(Role, r.value.role.value) in claims
    ensures r.Throws? ==> r.exception == NullReference
  {
    var userId := FirstOfType(claims, NameIdentifier);
    var name := FirstOfType(claims, Name);
    var email := FirstOfType(claims, Email);
    var role := FirstOfType(claims, Role);
    if userId.None? || name.None? || email.None? || role.None? then Throws(NullReference)
    else Ok(CustomUserClaims(Some(userId.value.value), Some(name.value.value), Some(email.value.value), Some(role.value.value)))
  }

  /** `DecryptToken`: the empty string gives the empty claims; otherwise the
      token is read and its claims looked up. It never returns null. */
  function DecryptToken(jwtToken: string, readJwt: string -> Result<seq<Claim>>): (r: Result<CustomUserClaims>)
    ensures jwtToken == [] ==> r == Ok(EmptyClaims)
    ensures jwtToken != [] && readJwt(jwtToken).Throws? ==> r == Throws(readJwt(jwtToken).exception)
    ensures jwtToken != [] && readJwt(jwtToken).Ok? ==> r == ClaimsOf(readJwt(jwtToken).value)
  {
    if jwtToken == [] then Ok(EmptyClaims)
    else match readJwt(jwtToken)
      case Throws(e) => Throws(e)
      case Ok(claims) => ClaimsOf(claims)
  }

  /** Reading the claims `GenerateToken` writes gives back the user's id,
      name and email and the role, and the principal built from them carries
      exactly the server's claim list. */
  lemma ClaimsRoundTrip(user: AccountRepository.ApplicationUser, role: string)
    ensures ClaimsOf(AccountRepository.TokenClaims(user, role)) ==
      Ok(CustomUserClaims(Some(Text.NatToString(user.id)), Some(user.fullname), Some(user.email), Some(role)))
    ensures SetClaimPrincipal(ClaimsOf(AccountRepository.TokenClaims(user, role)).value) ==
      Ok(ClaimsPrincipal([ClaimsIdentity(AccountRepository.TokenClaims(user, role), Some(AuthenticationType))]))
  {
    TokenClaimsLookups(user, role);
  }

  /** Each claim type's first claim in the server's list is the one written for it. */
  lemma TokenClaimsLookups(user: AccountRepository.ApplicationUser, role: string)
    ensures var claims := AccountRepository.TokenClaims(user, role);
      && FirstOfType(claims, NameIdentifier) == Some(claims[0]) && FirstOfType(claims, Name) == Some(claims[1])
      && FirstOfType(claims, Email) == Some(claims[2]) && FirstOfType(claims, Role) == Some(claims[3])
  {
    LookupsInOrder(AccountRepository.TokenClaims(user, role));
  }

  /** The same round trip through the token string, for a reader that gives
      back the written claims, each before any other claim of its type, among
      whatever else the token carries (issuer, audience, expiry). */
  lemma DecryptGeneratedToken(user: AccountRepository.ApplicationUser, role: string,
                              writeToken: seq<Claim> -> string, readJwt: string -> Result<seq<Claim>>)
    requires writeToken(AccountRepository.TokenClaims(user, role)) != []
    requires readJwt(writeToken(AccountRepository.TokenClaims(user, role))).Ok?
    requires var read := readJwt(writeToken(AccountRepository.TokenClaims(user, role))).value;
      forall i :: 0 <= i < 4 ==> OccursFirstOfType(read, AccountRepository.TokenClaims(user, role)[i])
    ensures DecryptToken(writeToken(AccountRepository.TokenClaims(user, role)), readJwt) ==
      Ok(CustomUserClaims(Some(Text.NatToString(user.id)), Some(user.fullname), Some(user.email), Some(role)))
  {
    var written := AccountRepository.TokenClaims(user, role);
    var read := readJwt(writeToken(written)).value;
    ClaimTypesDistinct();
    OccursFirstFound(read, written[0]);
    OccursFirstFound(read, written[1]);
    OccursFirstFound(read, written[2]);
    OccursFirstFound(read, written[3]);
  }

  /** `GetAuthenticationStateAsync` for a held token: anonymous for a null or
      whitespace token, otherwise the principal of its claims. */
  function AuthenticationStateOf(token: Option<string>, readJwt: string -> Result<seq<Claim>>): (r: Result<ClaimsPrincipal>)
    ensures Text.IsNullOrWhiteSpace(token) ==> r == Ok(Anonymous)
    ensures !Text.IsNullOrWhiteSpace(token) && r.Ok? ==> |r.value.identities| == 1 && r.value.identities[0].IsAuthenticated()
  {
    if Text.IsNullOrWhiteSpace(token) then Ok(Anonymous)
    else match DecryptToken(token.value, readJwt)
      case Throws(e) => Throws(e)
      case Ok(claims) => SetClaimPrincipal(claims)
  }

  class CustomAuthenticationStateProvider {
    const accessTokenProvider: AccessTokenProvider
    /** The states passed to `NotifyAuthenticationStateChanged`, in order. */
    var notified: seq<ClaimsPrincipal>

    constructor (provider: AccessTokenProvider)
      ensures accessTokenProvider == provider && notified == []
    {
      accessTokenProvider := provider;
      notified := [];
    }

    method GetAuthenticationStateAsync(readJwt: string -> Result<seq<Claim>>) returns (r: Result<ClaimsPrincipal>)
      ensures r == AuthenticationStateOf(accessTokenProvider.token, readJwt)
    {
      var token := accessTokenProvider.GetTokenAsync();
      if Text.IsNullOrWhiteSpace(token) {
        return Ok(Anonymous);
      }
      var getUserClaims := DecryptToken(token.value, readJwt);
      if getUserClaims.Throws? {
        return Throws(getUserClaims.exception);
      }
      r := SetClaimPrincipal(getUserClaims.value);
    }

    /** `UpdateAuthenticationState`: a non-empty token is stored first and
        then decoded, and the resulting principal is announced; an empty one
        clears the provider and announces no principal. An exception leaves
        the token stored and announces nothing. */
    method UpdateAuthenticationState(sessionToken: Option<string>, readJwt: string -> Result<seq<Claim>>)
      returns (r: Result<ClaimsPrincipal>)
      modifies this, accessTokenProvider
      ensures Text.IsNullOrEmpty(sessionToken) ==>
        && accessTokenProvider.token == None
        && r == Ok(NoPrincipal) && notified == old(notified) + [NoPrincipal]
      ensures !Text.IsNullOrEmpty(sessionToken) ==> accessTokenProvider.token == sessionToken
      ensures !Text.IsNullOrEmpty(sessionToken) ==>
        var principal := match DecryptToken(sessionToken.value, readJwt)
                         case Throws(e) => Throws(e)
                         case Ok(c) => SetClaimPrincipal(c);
        && r == principal
        && (principal.Ok? ==> notified == old(notified) + [principal.value])
        && (principal.Throws? ==> notified == old(notified))
    {
      if !Text.IsNullOrEmpty(sessionToken) {
        accessTokenProvider.SetTokenAsync(sessionToken);
        var getUserClaims := DecryptToken(sessionToken.value, readJwt);
        if getUserClaims.Throws? {
          return Throws(getUserClaims.exception);
        }
        var claimsPrincipal := SetClaimPrincipal(getUserClaims.value);
        if claimsPrincipal.Throws? {
          return claimsPrincipal;
        }
        notified := notified + [claimsPrincipal.value];
        return claimsPrincipal;
      }
      accessTokenProvider.RemoveTokenAsync();
      notified := notified + [NoPrincipal];
      return Ok(NoPrincipal);
    }
  }
}
