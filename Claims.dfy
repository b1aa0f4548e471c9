/** The claim vocabulary shared by the server, which writes the access
    token's claims, and the client, which reads them back. */
module Claims {
  import opened Wrappers
  import Seqs

  /** The `System.Security.Claims.ClaimTypes` URIs of the four claims used. */
  const NameIdentifier := "http://schemas.xmlsoap.org/ws/2005/05/identity/claims/nameidentifier"
  const Name := "http://schemas.xmlsoap.org/ws/2005/05/identity/claims/name"
  const Email := "http://schemas.xmlsoap.org/ws/2005/05/identity/claims/emailaddress"
  const Role := "http://schemas.microsoft.com/ws/2008/06/identity/claims/role"

  /** The four claim types are different URIs: already their lengths differ. */
  lemma ClaimTypesDistinct()
    ensures |NameIdentifier| == 68 && |Name| == 58 && |Email| == 66 && |Role| == 60
    ensures NameIdentifier != Name && NameIdentifier != Email && NameIdentifier != Role
    ensures Name != Email && Name != Role && Email != Role
  {
  }

  datatype Claim = Claim(claimType: string, value: string)

  /** `claims.FirstOrDefault(c => c.Type == t)`. */
  function FirstOfType(claims: seq<Claim>, t: string): (r: Option<Claim>)
    ensures r.Some? ==> r.value in claims && r.value.claimType == t
    ensures r.None? <==> forall i :: 0 <= i < |claims| ==> claims[i].claimType != t
  {
    Seqs.First(claims, (c: Claim) => c.claimType == t)
  }

  /** A claim whose type no earlier claim has is the first of its type. */
  lemma FirstOfTypeAt(claims: seq<Claim>, k: nat)
    requires k < |claims|
    requires forall j :: 0 <= j < k ==> claims[j].claimType != claims[k].claimType
    ensures FirstOfType(claims, claims[k].claimType) == Some(claims[k])
  {
  }

  /** `c` occurs in `claims` with no earlier claim of its type, as a claim
      written into a token does among the registered claims (`iss`, `aud`,
      `exp`) the token handler adds around it. */
  ghost predicate OccursFirstOfType(claims: seq<Claim>, c: Claim)
  {
    exists k :: 0 <= k < |claims| && claims[k] == c && forall j :: 0 <= j < k ==> claims[j].claimType != c.claimType
  }

  /** Such a claim is what the lookup of its type finds. */
  lemma OccursFirstFound(claims: seq<Claim>, c: Claim)
    requires OccursFirstOfType(claims, c)
    ensures FirstOfType(claims, c.claimType) == Some(c)
  {
    var k :| 0 <= k < |claims| && claims[k] == c && forall j :: 0 <= j < k ==> claims[j].claimType != c.claimType;
    FirstOfTypeAt(claims, k);
  }

  /** In a list of one claim of each of the four types, in order, each
      type's first claim is the one at its position. */
  lemma LookupsInOrder(claims: seq<Claim>)
    requires |claims| == 4 && claims[0].claimType == NameIdentifier && claims[1].claimType == Name
    requires claims[2].claimType == Email && claims[3].claimType == Role
    ensures FirstOfType(claims, NameIdentifier) == Some(claims[0]) && FirstOfType(claims, Name) == Some(claims[1])
    ensures FirstOfType(claims, Email) == Some(claims[2]) && FirstOfType(claims, Role) == Some(claims[3])
  {
    ClaimTypesDistinct();
    FirstOfTypeAt(claims, 0);
    FirstOfTypeAt(claims, 1);
    FirstOfTypeAt(claims, 2);
    FirstOfTypeAt(claims, 3);
  }
}
