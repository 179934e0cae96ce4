/**
  The relying-party checks of an OpenID Connect client on a decoded id_token
  (OpenID Connect Core 1.0, section 3.1.3.7) and on the access token bound to
  it through `at_hash` (section 3.2.2.9), as done by `TokenValidationService`.

  Decoding a token into claims, header and expiry date is done elsewhere
  (TokenHelperService is not part of this model): the checks here take the
  decoded values. The wall clock is the parameter `nowMs` (milliseconds since
  the epoch); signature verification, hashing, hex-to-base64url and URI
  decoding are function-typed parameters the model does not interpret.
*/
module TokenValidation {
  import opened Wrappers

  /** The local nonce stored when the id_token comes from a refresh-token grant. */
  const RefreshTokenNoncePlaceholder: string := "--RefreshToken--"

  /** The JWS `alg` values accepted for id_token signatures (there is no ES512). */
  const KeyAlgorithms: seq<string> :=
    ["HS256", "HS384", "HS512", "RS256", "RS384", "RS512", "ES256", "ES384", "PS256", "PS384", "PS512"]

  // ---------------------------------------------------------------------------
  // Data model
  // ---------------------------------------------------------------------------

  /** The `aud` claim: a single string or an array of strings. */
  datatype Audience = Single(value: string) | Many(values: seq<string>)

  /** The id_token payload claims the checks look at; `None` is an absent claim. */
  datatype Claims = Claims(
    iss: Option<string>,
    sub: Option<string>,
    aud: Option<Audience>,
    exp: Option<int>,       // seconds since the epoch
    iat: Option<int>,       // seconds since the epoch
    nonce: Option<string>,
    azp: Option<string>)
  {
    /** `hasOwnProperty(name)` for the claims the model represents. */
    predicate Has(name: string) {
      match name
      case "iss" => iss.Some?
      case "sub" => sub.Some?
      case "aud" => aud.Some?
      case "exp" => exp.Some?
      case "iat" => iat.Some?
      case "nonce" => nonce.Some?
      case "azp" => azp.Some?
      case _ => false
    }
  }

  /** The JOSE header: `kid`, `alg` and the names of any other parameters. */
  datatype JoseHeader = JoseHeader(kid: Option<string>, alg: Option<string>, otherParams: set<string>) {
    /** The header decoded to an object without any property. */
    predicate IsEmpty() {
      kid.None? && alg.None? && otherParams == {}
    }
  }

  /**
    One entry of a JSON Web Key Set: the members used to pick a key, and the
    key material (`n` and `e`, or `x` and `y`) the public key is built from,
    kept opaque.
  */
  datatype JsonWebKey = JsonWebKey(kid: Option<string>, kty: Option<string>, use: Option<string>, material: string)

  /** JWS verification of a compact token with a key and an algorithm (not interpreted). */
  type Verifier = (string, JsonWebKey, string) -> bool

  /** JavaScript truthiness of an optional string: absent and "" are falsy. */
  predicate Truthy(s: Option<string>) {
    s.Some? && s.value != ""
  }

  /** JavaScript `seconds || 0` for an optional whole number of seconds. */
  function SecondsOrZero(seconds: Option<int>): int {
    match seconds
    case None => 0
    case Some(s) => s   // a zero is falsy too, and becomes 0
  }

  function Abs(x: int): nat {
    if x < 0 then -x else x
  }

  // ---------------------------------------------------------------------------
  // Expiry (id_token C7) and access-token expiry
  // ---------------------------------------------------------------------------

  /** True iff the id_token's expiry date lies strictly after now plus the clock-skew offset. */
  function ValidateIdTokenExpNotExpired(expiresAtMs: Option<int>, offsetSeconds: Option<int>, nowMs: int): (notExpired: bool)
    ensures expiresAtMs.None? ==> !notExpired
    ensures expiresAtMs.Some? ==> (notExpired <==> nowMs + SecondsOrZero(offsetSeconds) * 1000 < expiresAtMs.value)
  {
    if expiresAtMs.None? then false
    else
      var nowWithOffset := nowMs + SecondsOrZero(offsetSeconds) * 1000;
      expiresAtMs.value > nowWithOffset
  }

  /** The negation of ValidateIdTokenExpNotExpired: no expiry, or expiry at or before now plus offset. */
  function HasIdTokenExpired(expiresAtMs: Option<int>, offsetSeconds: Option<int>, nowMs: int): (expired: bool)
    ensures expired == !ValidateIdTokenExpNotExpired(expiresAtMs, offsetSeconds, nowMs)
    ensures expired <==> expiresAtMs.None? || expiresAtMs.value <= nowMs + SecondsOrZero(offsetSeconds) * 1000
  {
    !ValidateIdTokenExpNotExpired(expiresAtMs, offsetSeconds, nowMs)
  }

  /** An access token without a recorded expiry never expires; otherwise as for the id_token. */
  function ValidateAccessTokenNotExpired(expiresAtMs: Option<int>, offsetSeconds: Option<int>, nowMs: int): (notExpired: bool)
    ensures expiresAtMs.None? ==> notExpired
    ensures expiresAtMs.Some? ==> notExpired == ValidateIdTokenExpNotExpired(expiresAtMs, offsetSeconds, nowMs)
  {
    if expiresAtMs.None? then true
    else
      var nowWithOffset := nowMs + SecondsOrZero(offsetSeconds) * 1000;
      expiresAtMs.value > nowWithOffset
  }

  /** Once expired, an id_token stays expired as the clock moves forward. */
  lemma ExpiredStaysExpired(expiresAtMs: Option<int>, offsetSeconds: Option<int>, earlierMs: int, laterMs: int)
    requires earlierMs <= laterMs
    requires HasIdTokenExpired(expiresAtMs, offsetSeconds, earlierMs)
    ensures HasIdTokenExpired(expiresAtMs, offsetSeconds, laterMs)
  {
  }

  /** An absent offset and an offset of zero give the same verdicts. */
  lemma AbsentOffsetIsZero(expiresAtMs: Option<int>, nowMs: int)
    ensures ValidateIdTokenExpNotExpired(expiresAtMs, None, nowMs) == ValidateIdTokenExpNotExpired(expiresAtMs, Some(0), nowMs)
    ensures ValidateAccessTokenNotExpired(expiresAtMs, None, nowMs) == ValidateAccessTokenNotExpired(expiresAtMs, Some(0), nowMs)
  {
  }

  /** A larger offset only makes the id_token expiry check stricter. */
  lemma LargerOffsetIsStricter(expiresAtMs: Option<int>, smaller: int, larger: int, nowMs: int)
    requires smaller <= larger
    ensures ValidateIdTokenExpNotExpired(expiresAtMs, Some(larger), nowMs) ==> ValidateIdTokenExpNotExpired(expiresAtMs, Some(smaller), nowMs)
  {
  }

  /** An access token with no expiry is reported valid for every clock and offset. */
  lemma AccessTokenWithoutExpiryNeverExpires()
    ensures forall nowMs: int, offsetSeconds: Option<int> :: ValidateAccessTokenNotExpired(None, offsetSeconds, nowMs)
  {
  }

  // ---------------------------------------------------------------------------
  // Required claims
  // ---------------------------------------------------------------------------

  /** The claims an id_token must carry, in the order they are checked. */
  const RequiredClaimNames: seq<string> := ["iss", "sub", "aud", "exp", "iat"]

  /** All of iss, sub, aud, exp and iat are present. */
  predicate HasRequiredClaims(claims: Claims) {
    forall name :: name in RequiredClaimNames ==> claims.Has(name)
  }

  /**
    Checks every required claim in turn, without stopping at the first missing
    one; `missing` lists the claims a warning is logged for, in check order.
  */
  method ValidateRequiredIdToken(claims: Claims) returns (validated: bool, missing: seq<string>)
    ensures validated == HasRequiredClaims(claims)
    ensures validated <==> missing == []
    ensures forall name :: name in missing <==> name in RequiredClaimNames && !claims.Has(name)
    ensures |missing| <= |RequiredClaimNames|
  {
    validated := true;
    missing := [];
    if !claims.Has("iss") {
      validated := false;
      missing := missing + ["iss"];
    }
    if !claims.Has("sub") {
      validated := false;
      missing := missing + ["sub"];
    }
    if !claims.Has("aud") {
      validated := false;
      missing := missing + ["aud"];
    }
    if !claims.Has("exp") {
      validated := false;
      missing := missing + ["exp"];
    }
    if !claims.Has("iat") {
      validated := false;
      missing := missing + ["iat"];
    }
  }

  /** `more` carries every claim `fewer` carries (with any values). */
  ghost predicate HasAtLeastClaimsOf(more: Claims, fewer: Claims) {
    forall name :: fewer.Has(name) ==> more.Has(name)
  }

  /** Adding claims never turns a passing required-claims check into a failing one. */
  lemma RequiredClaimsMonotone(fewer: Claims, more: Claims)
    requires HasRequiredClaims(fewer)
    requires HasAtLeastClaimsOf(more, fewer)
    ensures HasRequiredClaims(more)
  {
  }

  // ---------------------------------------------------------------------------
  // Issued-at offset (id_token C8)
  // ---------------------------------------------------------------------------

  /**
    Skipped when disabled; otherwise `iat` must be present and lie strictly less
    than the maximum offset away from now, in either direction.
  */
  function ValidateIdTokenIatMaxOffset(claims: Claims, maxOffsetAllowedInSeconds: Option<int>, disableIatOffsetValidation: bool, nowMs: int): (valid: bool)
    ensures disableIatOffsetValidation ==> valid
    ensures !disableIatOffsetValidation && claims.iat.None? ==> !valid
    ensures !disableIatOffsetValidation && claims.iat.Some? ==>
      (valid <==> Abs(nowMs - claims.iat.value * 1000) < SecondsOrZero(maxOffsetAllowedInSeconds) * 1000)
  {
    if disableIatOffsetValidation then true
    else if claims.iat.None? then false
    else
      var iatMs := claims.iat.value * 1000;
      var maxOffsetMs := SecondsOrZero(maxOffsetAllowedInSeconds) * 1000;
      var diff := nowMs - iatMs;
      if diff > 0 then diff < maxOffsetMs else -diff < maxOffsetMs
  }

  /** The issued-at check is symmetric: a token issued d ms in the past or in the future gets the same verdict. */
  lemma IatOffsetSymmetric(claims: Claims, maxOffset: Option<int>, disable: bool, d: int)
    requires claims.iat.Some?
    ensures ValidateIdTokenIatMaxOffset(claims, maxOffset, disable, claims.iat.value * 1000 + d)
         == ValidateIdTokenIatMaxOffset(claims, maxOffset, disable, claims.iat.value * 1000 - d)
  {
  }

  /** With the check enabled and a maximum offset that is absent, zero (or negative), no token passes. */
  lemma IatZeroOffsetRejectsAll(claims: Claims, maxOffset: Option<int>, nowMs: int)
    requires SecondsOrZero(maxOffset) <= 0
    ensures !ValidateIdTokenIatMaxOffset(claims, maxOffset, false, nowMs)
  {
  }

  // ---------------------------------------------------------------------------
  // Nonce (id_token C9)
  // ---------------------------------------------------------------------------

  /**
    The claim nonce must equal the local nonce, unless the local nonce is the
    refresh-token sentinel and either the claim has no nonce or nonce checking
    after refresh is switched off.
  */
  function ValidateIdTokenNonce(claims: Claims, localNonce: string, ignoreNonceAfterRefresh: bool): (valid: bool)
    ensures valid <==>
      claims.nonce == Some(localNonce)
      || (localNonce == RefreshTokenNoncePlaceholder && (claims.nonce.None? || ignoreNonceAfterRefresh))
  {
    var isFromRefreshToken := (claims.nonce.None? || ignoreNonceAfterRefresh) && localNonce == RefreshTokenNoncePlaceholder;
    isFromRefreshToken || claims.nonce == Some(localNonce)
  }

  /** With the sentinel as local nonce and the ignore flag set, any claim nonce passes. */
  lemma NonceIgnoredAfterRefresh(claims: Claims)
    ensures ValidateIdTokenNonce(claims, RefreshTokenNoncePlaceholder, true)
  {
  }

  /** For any other local nonce the flag is irrelevant and the nonces must be equal. */
  lemma NonceExactOutsideRefresh(claims: Claims, localNonce: string, ignoreNonceAfterRefresh: bool)
    requires localNonce != RefreshTokenNoncePlaceholder
    ensures ValidateIdTokenNonce(claims, localNonce, ignoreNonceAfterRefresh) <==> claims.nonce == Some(localNonce)
  {
  }

  // ---------------------------------------------------------------------------
  // Issuer, audience, authorized party (id_token C1-C4) and state
  // ---------------------------------------------------------------------------

  /** The `iss` claim must be present and exactly equal to the discovery issuer. */
  function ValidateIdTokenIss(claims: Claims, authWellKnownEndpointsIssuer: string): (valid: bool)
    ensures valid <==> claims.iss == Some(authWellKnownEndpointsIssuer)
  {
    claims.iss == Some(authWellKnownEndpointsIssuer)
  }

  /** An array `aud` must contain the client id; any other `aud` must be exactly the client id. */
  function ValidateIdTokenAud(claims: Claims, aud: string): (valid: bool)
    ensures claims.aud.Some? && claims.aud.value.Many? ==> (valid <==> aud in claims.aud.value.values)
    ensures !(claims.aud.Some? && claims.aud.value.Many?) ==> (valid <==> claims.aud == Some(Single(aud)))
  {
    match claims.aud
    case Some(Many(values)) => aud in values
    case _ => claims.aud == Some(Single(aud))
  }

  /** Further audiences next to the client id do not make the audience check fail. */
  lemma ExtraAudiencesTolerated(claims: Claims, clientId: string, others: seq<string>)
    requires claims.aud.Some? && claims.aud.value.Many?
    requires ValidateIdTokenAud(claims, clientId)
    ensures ValidateIdTokenAud(claims.(aud := Some(Many(claims.aud.value.values + others))), clientId)
    ensures ValidateIdTokenAud(claims.(aud := Some(Many(others + claims.aud.value.values))), clientId)
  {
  }

  /** Fails exactly when `aud` is an array of more than one entry and `azp` is absent or empty. */
  function ValidateIdTokenAzpExistsIfMoreThanOneAud(claims: Claims): (valid: bool)
    ensures !valid <==> claims.aud.Some? && claims.aud.value.Many? && |claims.aud.value.values| > 1 && !Truthy(claims.azp)
  {
    match claims.aud
    case Some(Many(values)) => !(|values| > 1 && !Truthy(claims.azp))
    case _ => true
  }

  /** An absent or empty `azp` passes; a present one must equal the client id. */
  function ValidateIdTokenAzpValid(claims: Claims, clientId: string): (valid: bool)
    ensures !Truthy(claims.azp) ==> valid
    ensures Truthy(claims.azp) ==> (valid <==> claims.azp.value == clientId)
  {
    !Truthy(claims.azp) || claims.azp.value == clientId
  }

  /** Together, the two azp checks force `azp` to be the client id once there are several audiences. */
  lemma AzpChecksWithSeveralAudiences(claims: Claims, clientId: string)
    requires claims.aud.Some? && claims.aud.value.Many? && |claims.aud.value.values| > 1
    ensures ValidateIdTokenAzpExistsIfMoreThanOneAud(claims) && ValidateIdTokenAzpValid(claims, clientId)
        <==> claims.azp == Some(clientId) && clientId != ""
  {
  }

  /** The `state` returned with the callback must exactly equal the stored one. */
  function ValidateStateFromHashCallback(state: string, localState: string): (valid: bool)
    ensures valid <==> state == localState
  {
    state == localState
  }

  // ---------------------------------------------------------------------------
  // Signature and key selection (id_token C5, C6)
  // ---------------------------------------------------------------------------

  /** The key type required for a signing algorithm: "EC" for algorithms starting with 'E', else "RSA". */
  function KtyFor(alg: string): (kty: string)
    ensures kty == "EC" <==> |alg| > 0 && alg[0] == 'E'
    ensures kty == "EC" || kty == "RSA"
  {
    if |alg| > 0 && alg[0] == 'E' then "EC" else "RSA"
  }

  /** A key that may verify signatures of the given key type. */
  predicate IsSigningKeyFor(key: JsonWebKey, kty: string) {
    key.kty == Some(kty) && key.use == Some("sig")
  }

  /** The number of signing keys of type `kty` among `keys`. */
  function CountSigningKeys(keys: seq<JsonWebKey>, kty: string): (n: nat)
    ensures n <= |keys|
    ensures n == 0 <==> forall j :: 0 <= j < |keys| ==> !IsSigningKeyFor(keys[j], kty)
  {
    if keys == [] then 0
    else
      CountSigningKeys(keys[..|keys| - 1], kty) + (if IsSigningKeyFor(keys[|keys| - 1], kty) then 1 else 0)
  }

  /** Counting one more key of a prefix adds one exactly when that key is a signing key. */
  lemma CountSigningKeysStep(keys: seq<JsonWebKey>, kty: string, i: nat)
    requires i < |keys|
    ensures CountSigningKeys(keys[..i + 1], kty)
         == CountSigningKeys(keys[..i], kty) + (if IsSigningKeyFor(keys[i], kty) then 1 else 0)
  {
    assert keys[..i + 1][..i] == keys[..i];
  }

  /** The index of the first key carrying `kid`, if any. */
  function FirstKeyWithKid(keys: seq<JsonWebKey>, kid: string): (r: Option<nat>)
    ensures r.Some? ==> r.value < |keys| && keys[r.value].kid == Some(kid)
    ensures r.Some? ==> forall j :: 0 <= j < r.value ==> keys[j].kid != Some(kid)
    ensures r.None? ==> forall j :: 0 <= j < |keys| ==> keys[j].kid != Some(kid)
  {
    if keys == [] then None
    else if keys[0].kid == Some(kid) then Some(0)
    else
      match FirstKeyWithKid(keys[1..], kid)
      case None => None
      case Some(i) => Some(i + 1)
  }

  /** The index of the first signing key of type `kty`, if any. */
  function FirstSigningKey(keys: seq<JsonWebKey>, kty: string): (r: Option<nat>)
    ensures r.Some? ==> r.value < |keys| && IsSigningKeyFor(keys[r.value], kty)
    ensures r.Some? ==> forall j :: 0 <= j < r.value ==> !IsSigningKeyFor(keys[j], kty)
    ensures r.None? ==> forall j :: 0 <= j < |keys| ==> !IsSigningKeyFor(keys[j], kty)
  {
    if keys == [] then None
    else if IsSigningKeyFor(keys[0], kty) then Some(0)
    else
      match FirstSigningKey(keys[1..], kty)
      case None => None
      case Some(i) => Some(i + 1)
  }

  /**
    The key the id_token is verified with: the first key with the header's
    `kid` when there is one; otherwise the signing key of the algorithm's key
    type, provided there is exactly one.
  */
  function SignatureKeyIndex(header: JoseHeader, alg: string, keys: seq<JsonWebKey>): (r: Option<nat>)
    ensures r.Some? ==> r.value < |keys|
  {
    match header.kid
    case Some(kid) => FirstKeyWithKid(keys, kid)
    case None =>
      var kty := KtyFor(alg);
      if CountSigningKeys(keys, kty) == 1 then FirstSigningKey(keys, kty) else None
  }

  /** The verdict of the signature check, as a function of its inputs. */
  predicate SignatureAccepted(idToken: string, header: JoseHeader, jwtKeys: Option<seq<JsonWebKey>>, verify: Verifier) {
    && jwtKeys.Some?
    && !header.IsEmpty()
    && header.alg.Some?
    && header.alg.value in KeyAlgorithms
    && var i := SignatureKeyIndex(header, header.alg.value, jwtKeys.value);
       i.Some? && verify(idToken, jwtKeys.value[i.value], header.alg.value)
  }

  /** The first loop of the signature check: counts the signing keys of type `kty`. */
  method CountMatchingKeys(keys: seq<JsonWebKey>, kty: string) returns (amountOfMatchingKeys: nat)
    ensures amountOfMatchingKeys == CountSigningKeys(keys, kty)
  {
    amountOfMatchingKeys := 0;
    for i := 0 to |keys|
      invariant amountOfMatchingKeys == CountSigningKeys(keys[..i], kty)
    {
      CountSigningKeysStep(keys, kty, i);
      if IsSigningKeyFor(keys[i], kty) {
        amountOfMatchingKeys := amountOfMatchingKeys + 1;
      }
    }
    assert keys[..|keys|] == keys;
  }

  /**
    Rejects a missing key set, an empty header and an unsupported `alg`; then
    picks the key (by `kid`, or the only signing key of the right type) and
    verifies the token with it.
  */
  method ValidateSignatureIdToken(idToken: string, header: JoseHeader, jwtKeys: Option<seq<JsonWebKey>>, verify: Verifier)
    returns (isValid: bool)
    ensures isValid == SignatureAccepted(idToken, header, jwtKeys, verify)
  {
    if jwtKeys.None? {
      return false;
    }
    if header.IsEmpty() {
      return false;
    }
    if header.alg.None? || header.alg.value !in KeyAlgorithms {
      return false;
    }
    var keys := jwtKeys.value;
    var alg := header.alg.value;
    var jwtKtyToUse := KtyFor(alg);
    isValid := false;

    if header.kid.None? {
      var amountOfMatchingKeys := CountMatchingKeys(keys, jwtKtyToUse);
      if amountOfMatchingKeys == 0 {
        return false;
      }
      if amountOfMatchingKeys > 1 {
        return false;
      }
      for i := 0 to |keys|
        invariant forall j :: 0 <= j < i ==> !IsSigningKeyFor(keys[j], jwtKtyToUse)
      {
        if IsSigningKeyFor(keys[i], jwtKtyToUse) {
          assert FirstSigningKey(keys, jwtKtyToUse) == Some(i);
          isValid := verify(idToken, keys[i], alg);
          return isValid;
        }
      }
    } else {
      var kid := header.kid.value;
      for i := 0 to |keys|
        invariant forall j :: 0 <= j < i ==> keys[j].kid != Some(kid)
      {
        if keys[i].kid == Some(kid) {
          assert FirstKeyWithKid(keys, kid) == Some(i);
          isValid := verify(idToken, keys[i], alg);
          return isValid;
        }
      }
    }
    return isValid;
  }

  /** With exactly one signing key of a type, every other key is not a signing key of that type. */
  lemma {:induction false} SoleSigningKey(keys: seq<JsonWebKey>, kty: string, i: nat)
    requires CountSigningKeys(keys, kty) == 1
    requires i < |keys| && IsSigningKeyFor(keys[i], kty)
    ensures forall j :: 0 <= j < |keys| && j != i ==> !IsSigningKeyFor(keys[j], kty)
  {
    var n := |keys| - 1;
    var prefix := keys[..n];
    assert keys == prefix + [keys[n]];
    if IsSigningKeyFor(keys[n], kty) {
      assert CountSigningKeys(prefix, kty) == 0;
    } else {
      assert CountSigningKeys(prefix, kty) == 1;
      assert i < n;
      SoleSigningKey(prefix, kty, i);
    }
  }

  /** Two distinct signing keys of a type make the count at least two. */
  lemma {:induction false} TwoSigningKeysCounted(keys: seq<JsonWebKey>, kty: string, i: nat, j: nat)
    requires i < j < |keys|
    requires IsSigningKeyFor(keys[i], kty) && IsSigningKeyFor(keys[j], kty)
    ensures CountSigningKeys(keys, kty) >= 2
  {
    var n := |keys| - 1;
    var prefix := keys[..n];
    if j == n {
      assert prefix[i] == keys[i];
      assert CountSigningKeys(prefix, kty) != 0;
    } else {
      assert prefix[i] == keys[i] && prefix[j] == keys[j];
      TwoSigningKeysCounted(prefix, kty, i, j);
    }
  }

  /** The accepted-signature preconditions: a key set, a non-empty header and a supported `alg`. */
  predicate SignatureInputsUsable(header: JoseHeader, jwtKeys: Option<seq<JsonWebKey>>) {
    jwtKeys.Some? && !header.IsEmpty() && header.alg.Some? && header.alg.value in KeyAlgorithms
  }

  /** A missing key set, an empty header or an unsupported `alg` (such as ES512) is rejected whatever the keys and verifier. */
  lemma SignatureRejectsUnusableInputs(idToken: string, header: JoseHeader, jwtKeys: Option<seq<JsonWebKey>>, verify: Verifier)
    requires !SignatureInputsUsable(header, jwtKeys) || header.alg == Some("ES512")
    ensures !SignatureAccepted(idToken, header, jwtKeys, verify)
  {
  }

  /**
    Without `kid`: the token is accepted iff there is exactly one signing key of
    the algorithm's key type and it verifies the token.
  */
  lemma SignatureWithoutKid(idToken: string, header: JoseHeader, jwtKeys: Option<seq<JsonWebKey>>, verify: Verifier)
    requires SignatureInputsUsable(header, jwtKeys) && header.kid.None?
    ensures SignatureAccepted(idToken, header, jwtKeys, verify) <==>
      exists i :: 0 <= i < |jwtKeys.value|
        && IsSigningKeyFor(jwtKeys.value[i], KtyFor(header.alg.value))
        && (forall j :: 0 <= j < |jwtKeys.value| && j != i ==> !IsSigningKeyFor(jwtKeys.value[j], KtyFor(header.alg.value)))
        && verify(idToken, jwtKeys.value[i], header.alg.value)
  {
    var keys, alg := jwtKeys.value, header.alg.value;
    var kty := KtyFor(alg);
    if SignatureAccepted(idToken, header, jwtKeys, verify) {
      var i := SignatureKeyIndex(header, alg, keys).value;
      SoleSigningKey(keys, kty, i);
    }
    if exists i :: 0 <= i < |keys|
        && IsSigningKeyFor(keys[i], kty)
        && (forall j :: 0 <= j < |keys| && j != i ==> !IsSigningKeyFor(keys[j], kty))
        && verify(idToken, keys[i], alg)
    {
      var i :| 0 <= i < |keys|
        && IsSigningKeyFor(keys[i], kty)
        && (forall j :: 0 <= j < |keys| && j != i ==> !IsSigningKeyFor(keys[j], kty))
        && verify(idToken, keys[i], alg);
      CountOneSigningKey(keys, kty, i);
      var r := FirstSigningKey(keys, kty);
      assert r == Some(i);
    }
  }

  /** A single signing key of a type makes the count exactly one. */
  lemma {:induction false} CountOneSigningKey(keys: seq<JsonWebKey>, kty: string, i: nat)
    requires i < |keys| && IsSigningKeyFor(keys[i], kty)
    requires forall j :: 0 <= j < |keys| && j != i ==> !IsSigningKeyFor(keys[j], kty)
    ensures CountSigningKeys(keys, kty) == 1
  {
    var n := |keys| - 1;
    var prefix := keys[..n];
    if i == n {
      assert forall j :: 0 <= j < n ==> prefix[j] == keys[j];
    } else {
      assert forall j :: 0 <= j < n ==> prefix[j] == keys[j];
      CountOneSigningKey(prefix, kty, i);
    }
  }

  /**
    With `kid`: the token is accepted iff some key carries that `kid` and the
    first such key verifies the token; later keys with the same `kid` are never tried.
  */
  lemma SignatureWithKid(idToken: string, header: JoseHeader, jwtKeys: Option<seq<JsonWebKey>>, verify: Verifier)
    requires SignatureInputsUsable(header, jwtKeys) && header.kid.Some?
    ensures SignatureAccepted(idToken, header, jwtKeys, verify) <==>
      exists i :: 0 <= i < |jwtKeys.value|
        && jwtKeys.value[i].kid == header.kid
        && (forall j :: 0 <= j < i ==> jwtKeys.value[j].kid != header.kid)
        && verify(idToken, jwtKeys.value[i], header.alg.value)
  {
  }

  /**
    A rotated key that reuses a `kid` is never tried: when the first key with
    the header's `kid` fails to verify, the token is rejected even though a
    later key with the same `kid` would verify it.
  */
  lemma RotatedKeyWithSameKidNotTried(idToken: string, header: JoseHeader, keys: seq<JsonWebKey>, verify: Verifier)
    requires SignatureInputsUsable(header, Some(keys)) && header.kid.Some?
    requires |keys| == 2 && keys[0].kid == header.kid && keys[1].kid == header.kid
    requires !verify(idToken, keys[0], header.alg.value) && verify(idToken, keys[1], header.alg.value)
    ensures !SignatureAccepted(idToken, header, Some(keys), verify)
  {
  }

  // ---------------------------------------------------------------------------
  // Access token hash (access_token C1-C3)
  // ---------------------------------------------------------------------------

  /** The digests `at_hash` can be computed with. */
  datatype Sha = Sha256 | Sha384 | Sha512 {
    /** The name the hashing library takes. */
    function Name(): string {
      match this
      case Sha256 => "sha256"
      case Sha384 => "sha384"
      case Sha512 => "sha512"
    }

    /** The digest size in bits, written in decimal. */
    function Size(): string {
      match this
      case Sha256 => "256"
      case Sha384 => "384"
      case Sha512 => "512"
    }
  }

  /**
    The cryptographic and text primitives of the hashing library, not
    interpreted: `hashString` gives a hex digest for a digest name,
    `hexToB64u` re-encodes hex as base64url, and `decodeUriComponent` gives
    `None` where it would throw a URIError.
  */
  datatype Crypto = Crypto(
    hashString: (string, string) -> string,
    hexToB64u: string -> string,
    decodeUriComponent: string -> Option<string>)

  /** JavaScript `s.includes(part)`. */
  predicate Includes(s: string, part: string)
    decreases |s|
  {
    IsPrefix(part, s) || (|s| > 0 && Includes(s[1..], part))
  }

  /** `part` occurs in `s` starting at position `i`. */
  predicate OccursAt(s: string, part: string, i: int) {
    0 <= i && i + |part| <= |s| && s[i..i + |part|] == part
  }

  /** `Includes` holds iff `part` occurs at some position of `s`. */
  lemma {:induction false} IncludesIffOccurs(s: string, part: string)
    ensures Includes(s, part) <==> exists i :: OccursAt(s, part, i)
    decreases |s|
  {
    if |s| > 0 {
      IncludesIffOccurs(s[1..], part);
      if exists i :: OccursAt(s, part, i) {
        var i :| OccursAt(s, part, i);
        if i > 0 {
          assert s[1..][i - 1..i - 1 + |part|] == s[i..i + |part|];
          assert OccursAt(s[1..], part, i - 1);
        }
      }
      if Includes(s[1..], part) && !IsPrefix(part, s) {
        var i :| OccursAt(s[1..], part, i);
        assert s[1..][i..i + |part|] == s[i + 1..i + 1 + |part|];
        assert OccursAt(s, part, i + 1);
      }
      if IsPrefix(part, s) {
        assert OccursAt(s, part, 0);
      }
    } else {
      if exists i :: OccursAt(s, part, i) {
        var i :| OccursAt(s, part, i);
        assert i == 0 && part == [];
      }
      if IsPrefix(part, s) {
        assert OccursAt(s, part, 0);
      }
    }
  }

  /** The digest for the id_token's `alg`: SHA-384 if it mentions 384, else SHA-512 if it mentions 512, else SHA-256. */
  function ShaFor(idTokenAlg: string): (sha: Sha)
    ensures sha == Sha384 <==> Includes(idTokenAlg, "384")
    ensures sha == Sha512 <==> !Includes(idTokenAlg, "384") && Includes(idTokenAlg, "512")
    ensures sha == Sha256 <==> !Includes(idTokenAlg, "384") && !Includes(idTokenAlg, "512")
  {
    if Includes(idTokenAlg, "384") then Sha384
    else if Includes(idTokenAlg, "512") then Sha512
    else Sha256
  }

  /** Two letters followed by a digest size, the shape of every supported `alg`. */
  predicate IsSizedAlgorithm(alg: string) {
    && |alg| == 5
    && alg[0] !in "0123456789" && alg[1] !in "0123456789"
    && alg[2..] in {"256", "384", "512"}
  }

  lemma SupportedAlgorithmsAreSized(alg: string)
    requires alg in KeyAlgorithms
    ensures IsSizedAlgorithm(alg)
  {
  }

  /** For an algorithm like RS256 or ES384 the digest has the size the algorithm names. */
  lemma DigestSizeMatchesAlgorithm(alg: string)
    requires IsSizedAlgorithm(alg)
    ensures ShaFor(alg).Size() == alg[2..]
  {
    var size := alg[2..];
    IncludesIffOccurs(alg, "384");
    IncludesIffOccurs(alg, "512");
    assert OccursAt(alg, size, 2);
    forall i | 0 <= i < 2
      ensures !OccursAt(alg, "384", i) && !OccursAt(alg, "512", i)
    {
      assert alg[i..i + 3][0] == alg[i];
    }
    forall i | 2 < i
      ensures !OccursAt(alg, "384", i) && !OccursAt(alg, "512", i)
    {
    }
  }

  /** The left-most half of a hex digest (for an odd length, the shorter half). */
  function LeftHalf(hex: string): (half: string)
    ensures IsPrefix(half, hex)
    ensures |half| + |half| <= |hex| <= |half| + |half| + 1
  {
    hex[..|hex| / 2]
  }

  /** base64url of the left half of the access token's digest. */
  function GenerateAtHash(accessToken: string, sha: Sha, crypto: Crypto): (atHash: string)
    ensures var digest := crypto.hashString(accessToken, sha.Name());
            atHash == crypto.hexToB64u(digest[..|digest| / 2])
  {
    crypto.hexToB64u(LeftHalf(crypto.hashString(accessToken, sha.Name())))
  }

  /** The computed `at_hash` depends on the access token only through its digest. */
  lemma AtHashDependsOnlyOnDigest(a: string, b: string, sha: Sha, crypto: Crypto)
    requires crypto.hashString(a, sha.Name()) == crypto.hashString(b, sha.Name())
    ensures GenerateAtHash(a, sha, crypto) == GenerateAtHash(b, sha, crypto)
  {
  }

  /** What `validateIdTokenAtHash` does: return a verdict, or throw from URI decoding. */
  datatype AtHashOutcome = Returned(valid: bool) | ThrewUriError

  /**
    Compares `at_hash` with the hash of the access token; on a mismatch, retries
    once with the URI-decoded access token.
  */
  function ValidateIdTokenAtHash(accessToken: string, atHash: string, idTokenAlg: string, crypto: Crypto): (r: AtHashOutcome)
    ensures r == Returned(true) <==>
      GenerateAtHash(accessToken, ShaFor(idTokenAlg), crypto) == atHash
      || (crypto.decodeUriComponent(accessToken).Some?
          && GenerateAtHash(crypto.decodeUriComponent(accessToken).value, ShaFor(idTokenAlg), crypto) == atHash)
    ensures r == ThrewUriError <==>
      GenerateAtHash(accessToken, ShaFor(idTokenAlg), crypto) != atHash && crypto.decodeUriComponent(accessToken).None?
  {
    var sha := ShaFor(idTokenAlg);
    var testData := GenerateAtHash(accessToken, sha, crypto);
    if testData == atHash then Returned(true)
    else
      match crypto.decodeUriComponent(accessToken)
      case None => ThrewUriError
      case Some(decoded) =>
        var testValue := GenerateAtHash(decoded, sha, crypto);
        if testValue == atHash then Returned(true) else Returned(false)
  }

  /** When the first comparison matches, the decoded retry is never consulted: any URI decoder gives the same outcome. */
  lemma AtHashRetryOnlyOnMismatch(accessToken: string, atHash: string, idTokenAlg: string, crypto: Crypto, decoder: string -> Option<string>)
    requires GenerateAtHash(accessToken, ShaFor(idTokenAlg), crypto) == atHash
    ensures ValidateIdTokenAtHash(accessToken, atHash, idTokenAlg, crypto.(decodeUriComponent := decoder))
         == ValidateIdTokenAtHash(accessToken, atHash, idTokenAlg, crypto)
         == Returned(true)
  {
  }
}
