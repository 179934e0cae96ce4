# OpenID Connect client: token validation rules and client-prefixed persistence

This project models two parts of an Angular OpenID Connect / OAuth2 relying-party
library and proves properties of the model in Dafny.

1. **`TokenValidationService`**: the relying-party checks of OpenID Connect
   Core 1.0 on a decoded id_token. Section 3.1.3.7 covers issuer, audience,
   `azp`, signature, expiry, issued-at offset and nonce. Section 3.2.2.9 covers
   the access-token hash `at_hash`. The callback `state` echo and the
   access-token expiry are also modelled. The signature check picks the
   verification key from the JSON Web Key Set using the `kid` header parameter
   (section 4.1.4 of RFC 7515). Otherwise it uses the only signing key whose
   type matches the algorithm. Module `TokenValidation`, file
   `token_validation.dfy`.
2. **`StoragePersistanceService`**: a key-value façade over an abstract backing
   store. It has a fixed key set (`StorageKeys`), and every key is prefixed
   with `<clientId>_`. It offers two resets that clear fixed subsets of keys,
   and getters for the access, id and refresh tokens. Module
   `StoragePersistance`, file `storage_persistance.dfy`. The class
   `StoragePersistanceService` holds the backing store as a `map` field that
   its methods update in place.

How the source is represented:
- The clock `new Date()` becomes the parameter `nowMs`, in milliseconds since the epoch.
- An expiry date becomes `Option<int>` milliseconds. `None` is the missing date.
- A claim that is absent (`hasOwnProperty` false, or `undefined`) is `None`.
- JavaScript `x || 0` for the clock-skew and issued-at offsets is `SecondsOrZero`. An absent or zero value gives 0.
- JavaScript truthiness of `azp` is `Truthy`. An absent `azp` and an empty `azp` are both falsy.
- The validation checks over claims and strings are functions.
- `validateRequiredIdToken` is a method. Like the source, it accumulates a `validated` flag claim by claim. It also returns the list of claims it warned about.
- `validateSignatureIdToken` is a method with the source's three loops: one counts the signing keys of the right type (kept in the helper method `CountMatchingKeys`), one finds the first such key when the header has no kid, and one finds the first key with the header's kid. It is proved equal to the specification predicate `SignatureAccepted`.
- These library primitives are not interpreted: JWS verification, `hashString`, `hextob64u` and `decodeURIComponent`. They are function-typed parameters.
- In JavaScript, `decodeURIComponent` can throw a URIError. So the model gives `Option` for it, and the `at_hash` check returns either a verdict or `ThrewUriError`.

Notable behaviour of the code that the model keeps:
- With a `kid` header, the code verifies with the **first** key whose `kid` matches. A later duplicate is never tried, and no uniqueness is required.
- The accepted algorithms are exactly the eleven listed at token-validation.service.ts:54. ES512 is not among them.
- An array audience only has to **contain** the client id. Any additional audiences are accepted, although the comment at token-validation.service.ts:13-15 asks for the token to be rejected when it holds additional audiences not trusted by the Client. The code has no notion of trusted audiences.
- The `azp` rules treat an empty `azp` like an absent one.

## Model

| member | source | states |
|---|---|---|
| TokenValidation.ValidateIdTokenExpNotExpired | src/ResourceWithIdentityServerWithClient/angularApp/app/auth/validation/token-validation.service.ts:68-84 | false without an expiry date; otherwise true iff expiry > now + offset·1000, with an absent offset taken as 0 |
| TokenValidation.HasIdTokenExpired | src/ResourceWithIdentityServerWithClient/angularApp/app/auth/validation/token-validation.service.ts:59-64 | exactly the negation of the not-expired check: no expiry, or expiry ≤ now + offset·1000 |
| TokenValidation.ValidateAccessTokenNotExpired | src/ResourceWithIdentityServerWithClient/angularApp/app/auth/validation/token-validation.service.ts:86-101 | an access token without a recorded expiry is not expired; with one, the same strict comparison as the id_token |
| TokenValidation.ExpiredStaysExpired | src/ResourceWithIdentityServerWithClient/angularApp/app/auth/validation/token-validation.service.ts:76-78 | once expired at some time, an id_token is expired at every later time |
| TokenValidation.AbsentOffsetIsZero | src/ResourceWithIdentityServerWithClient/angularApp/app/auth/validation/token-validation.service.ts:70-92 | an absent offset and an offset of 0 give the same verdict, for both expiry checks |
| TokenValidation.LargerOffsetIsStricter | src/ResourceWithIdentityServerWithClient/angularApp/app/auth/validation/token-validation.service.ts:76-78 | a token that is unexpired under a larger offset is unexpired under a smaller one |
| TokenValidation.AccessTokenWithoutExpiryNeverExpires | src/ResourceWithIdentityServerWithClient/angularApp/app/auth/validation/token-validation.service.ts:86-90 | with no expiry, the access token is reported valid for every clock and every offset |
| TokenValidation.ValidateRequiredIdToken | src/ResourceWithIdentityServerWithClient/angularApp/app/auth/validation/token-validation.service.ts:131-159 | true iff iss, sub, aud, exp and iat are all present; every missing claim is reported, without stopping at the first, and only missing required claims are reported |
| TokenValidation.RequiredClaimsMonotone | src/ResourceWithIdentityServerWithClient/angularApp/app/auth/validation/token-validation.service.ts:131-159 | adding claims never turns a passing required-claims check into a failing one |
| TokenValidation.ValidateIdTokenIatMaxOffset | src/ResourceWithIdentityServerWithClient/angularApp/app/auth/validation/token-validation.service.ts:163-194 | true when the check is disabled; false without iat; otherwise true iff abs(now − iat·1000) < maxOffset·1000 |
| TokenValidation.IatOffsetSymmetric | src/ResourceWithIdentityServerWithClient/angularApp/app/auth/validation/token-validation.service.ts:188-193 | a token issued d ms in the past and one issued d ms in the future get the same verdict |
| TokenValidation.IatZeroOffsetRejectsAll | src/ResourceWithIdentityServerWithClient/angularApp/app/auth/validation/token-validation.service.ts:175-193 | with the check enabled and the max offset absent, zero or negative, every token is rejected |
| TokenValidation.ValidateIdTokenNonce | src/ResourceWithIdentityServerWithClient/angularApp/app/auth/validation/token-validation.service.ts:203-215 | true iff the claim nonce equals the local nonce, or the local nonce is `--RefreshToken--` and either the claim has no nonce or ignoreNonceAfterRefresh is set |
| TokenValidation.NonceIgnoredAfterRefresh | src/ResourceWithIdentityServerWithClient/angularApp/app/auth/validation/token-validation.service.ts:203-215 | with the refresh sentinel (the constant declared at line 53) as local nonce and the ignore flag set, every claim nonce passes |
| TokenValidation.NonceExactOutsideRefresh | src/ResourceWithIdentityServerWithClient/angularApp/app/auth/validation/token-validation.service.ts:203-215 | for any other local nonce the flag has no effect and the nonces must be equal |
| TokenValidation.ValidateIdTokenIss | src/ResourceWithIdentityServerWithClient/angularApp/app/auth/validation/token-validation.service.ts:219-231 | true iff iss is present and exactly equals the discovery issuer |
| TokenValidation.ValidateIdTokenAud | src/ResourceWithIdentityServerWithClient/angularApp/app/auth/validation/token-validation.service.ts:237-257 | an array aud passes iff it contains the client id; any other aud passes iff it is exactly the client id |
| TokenValidation.ExtraAudiencesTolerated | src/ResourceWithIdentityServerWithClient/angularApp/app/auth/validation/token-validation.service.ts:238-249 | adding audiences before or after an array aud that passes keeps it passing |
| TokenValidation.ValidateIdTokenAzpExistsIfMoreThanOneAud | src/ResourceWithIdentityServerWithClient/angularApp/app/auth/validation/token-validation.service.ts:259-265 | false exactly when aud is an array of more than one entry and azp is absent or empty |
| TokenValidation.ValidateIdTokenAzpValid | src/ResourceWithIdentityServerWithClient/angularApp/app/auth/validation/token-validation.service.ts:267-277 | true when azp is absent or empty; otherwise true iff azp equals the client id |
| TokenValidation.AzpChecksWithSeveralAudiences | src/ResourceWithIdentityServerWithClient/angularApp/app/auth/validation/token-validation.service.ts:259-277 | with several audiences, both azp checks pass iff azp is exactly the (non-empty) client id |
| TokenValidation.ValidateStateFromHashCallback | src/ResourceWithIdentityServerWithClient/angularApp/app/auth/validation/token-validation.service.ts:279-286 | true iff the returned state equals the stored state |
| TokenValidation.KtyFor | src/ResourceWithIdentityServerWithClient/angularApp/app/auth/validation/token-validation.service.ts:312-315 | the key type is EC iff the algorithm starts with 'E', and RSA otherwise |
| TokenValidation.CountSigningKeys | src/ResourceWithIdentityServerWithClient/angularApp/app/auth/validation/token-validation.service.ts:322-327 | the count is at most the number of keys, and is 0 iff no key has the key type and use "sig" |
| TokenValidation.FirstSigningKey | src/ResourceWithIdentityServerWithClient/angularApp/app/auth/validation/token-validation.service.ts:339-348 | the index of the first signing key of the key type; none iff there is no such key |
| TokenValidation.FirstKeyWithKid | src/ResourceWithIdentityServerWithClient/angularApp/app/auth/validation/token-validation.service.ts:351-360 | the index of the first key with the header's kid; none iff no key has it |
| TokenValidation.SignatureKeyIndex | src/ResourceWithIdentityServerWithClient/angularApp/app/auth/validation/token-validation.service.ts:319-361 | the selected key is always an index into the key set |
| TokenValidation.CountMatchingKeys | src/ResourceWithIdentityServerWithClient/angularApp/app/auth/validation/token-validation.service.ts:322-327 | the counting loop returns the number of keys with the algorithm's key type and use "sig" |
| TokenValidation.ValidateSignatureIdToken | src/ResourceWithIdentityServerWithClient/angularApp/app/auth/validation/token-validation.service.ts:292-364 | the three-loop method (its counting loop in CountMatchingKeys) returns exactly SignatureAccepted: usable inputs, a selected key, and that key verifies the token |
| TokenValidation.SoleSigningKey | src/ResourceWithIdentityServerWithClient/angularApp/app/auth/validation/token-validation.service.ts:329-340 | when the count is 1, the signing key found is the only one of its type |
| TokenValidation.TwoSigningKeysCounted | src/ResourceWithIdentityServerWithClient/angularApp/app/auth/validation/token-validation.service.ts:334-337 | two distinct signing keys of a type make the count at least 2, so the check fails |
| TokenValidation.CountOneSigningKey | src/ResourceWithIdentityServerWithClient/angularApp/app/auth/validation/token-validation.service.ts:322-337 | a signing key that is the only one of its type makes the count exactly 1 |
| TokenValidation.SignatureRejectsUnusableInputs | src/ResourceWithIdentityServerWithClient/angularApp/app/auth/validation/token-validation.service.ts:293-310 | a missing key set, an empty header, a missing or unsupported alg (ES512 among them) is rejected for every key set and verifier |
| TokenValidation.SignatureWithoutKid | src/ResourceWithIdentityServerWithClient/angularApp/app/auth/validation/token-validation.service.ts:319-348 | without kid: accepted iff there is exactly one signing key of the algorithm's type and it verifies the token |
| TokenValidation.SignatureWithKid | src/ResourceWithIdentityServerWithClient/angularApp/app/auth/validation/token-validation.service.ts:349-361 | with kid: accepted iff some key has that kid and the first such key verifies the token; otherwise rejected |
| TokenValidation.RotatedKeyWithSameKidNotTried | src/ResourceWithIdentityServerWithClient/angularApp/app/auth/validation/token-validation.service.ts:351-359 | when the first key with the header's kid fails to verify, the token is rejected even if a later key with the same kid (different key material) would verify it |
| TokenValidation.IncludesIffOccurs | src/ResourceWithIdentityServerWithClient/angularApp/app/auth/validation/token-validation.service.ts:404-406 | the recursive `includes` holds iff the part occurs at some position of the string |
| TokenValidation.ShaFor | src/ResourceWithIdentityServerWithClient/angularApp/app/auth/validation/token-validation.service.ts:403-408 | SHA-384 iff alg contains "384"; SHA-512 iff it does not and contains "512"; SHA-256 iff neither |
| TokenValidation.SupportedAlgorithmsAreSized | src/ResourceWithIdentityServerWithClient/angularApp/app/auth/validation/token-validation.service.ts:54 | every accepted algorithm is two letters followed by 256, 384 or 512 |
| TokenValidation.DigestSizeMatchesAlgorithm | src/ResourceWithIdentityServerWithClient/angularApp/app/auth/validation/token-validation.service.ts:402-408 | for such an algorithm the chosen digest has the size the algorithm names (RS256 to SHA-256, PS384 to SHA-384, ...) |
| TokenValidation.LeftHalf | src/ResourceWithIdentityServerWithClient/angularApp/app/auth/validation/token-validation.service.ts:427 | the result is a prefix of the digest of half its length (rounded down) |
| TokenValidation.GenerateAtHash | src/ResourceWithIdentityServerWithClient/angularApp/app/auth/validation/token-validation.service.ts:425-431 | the computed at_hash is the base64url form of the first half (rounded down) of the hex digest of the access token under the given SHA |
| TokenValidation.AtHashDependsOnlyOnDigest | src/ResourceWithIdentityServerWithClient/angularApp/app/auth/validation/token-validation.service.ts:425-431 | two access tokens with the same digest yield the same computed at_hash |
| TokenValidation.ValidateIdTokenAtHash | src/ResourceWithIdentityServerWithClient/angularApp/app/auth/validation/token-validation.service.ts:399-423 | true iff b64u(leftHalf(H(at))) equals at_hash or, after URI-decoding, b64u(leftHalf(H(decoded))) does; throws exactly when the first comparison fails and decoding fails |
| TokenValidation.AtHashRetryOnlyOnMismatch | src/ResourceWithIdentityServerWithClient/angularApp/app/auth/validation/token-validation.service.ts:412-420 | when the first comparison matches, the outcome is true whatever the URI decoder does: the retry is not consulted |
| StoragePersistance.OptionalField | src/AngularClientCode/angularApp/app/auth/storage/storage-persistance.service.ts:51 | for an own property that neither strings nor `Object.prototype` carry (such as `id_token` and `refresh_token`), `v?.name` gives the property iff v is an object that has it |
| StoragePersistance.CreateKeyWithPrefix | src/AngularClientCode/angularApp/app/auth/storage/storage-persistance.service.ts:58-61 | the backing key is the client id (or "") followed by "_" and the key's name |
| StoragePersistance.NoClientIdGivesUnderscorePrefix | src/AngularClientCode/angularApp/app/auth/storage/storage-persistance.service.ts:59-60 | with no client id, or an empty one, the backing key is "_" + name |
| StoragePersistance.NamesDistinct | src/AngularClientCode/angularApp/app/auth/storage/storage-persistance.service.ts:5-15 | the ten storage keys have pairwise distinct names |
| StoragePersistance.CreateKeyWithPrefixInjective | src/AngularClientCode/angularApp/app/auth/storage/storage-persistance.service.ts:5-15 | for a fixed client id, distinct storage keys map to distinct backing keys |
| StoragePersistance.WriteThenRead | src/AngularClientCode/angularApp/app/auth/storage/storage-persistance.service.ts:24-32 | writing a key and reading it back gives the value written; every other storage key reads as before |
| StoragePersistance.FlowDataResetEffect | src/AngularClientCode/angularApp/app/auth/storage/storage-persistance.service.ts:34-39 | after the flow-data reset exactly session_state, storageSilentRenewRunning, codeVerifier and userData read null; every other key and every other backing entry is unchanged |
| StoragePersistance.FlowDataResetIdempotent | src/AngularClientCode/angularApp/app/auth/storage/storage-persistance.service.ts:34-39 | resetting the flow data twice leaves the same store as once |
| StoragePersistance.AuthStateResetEffect | src/AngularClientCode/angularApp/app/auth/storage/storage-persistance.service.ts:41-44 | after the auth-state reset exactly authzData and authnResult read ''; every other key and every other backing entry is unchanged |
| StoragePersistance.ResetsCommute | src/AngularClientCode/angularApp/app/auth/storage/storage-persistance.service.ts:34-44 | the two resets touch disjoint keys and may be done in either order |
| StoragePersistance.AuthStateResetClearsTokens | src/AngularClientCode/angularApp/app/auth/storage/storage-persistance.service.ts:41-56 | after the auth-state reset there is no id_token and no refresh_token, and the access token is '' |
| StoragePersistance.StoragePersistanceService.constructor | src/AngularClientCode/angularApp/app/auth/storage/storage-persistance.service.ts:19-22 | the service starts with the given client id and backing store; the client id stays fixed for the service's life |
| StoragePersistance.StoragePersistanceService.Read | src/AngularClientCode/angularApp/app/auth/storage/storage-persistance.service.ts:24-27 | reads the prefixed backing entry, null when there is none |
| StoragePersistance.StoragePersistanceService.Write | src/AngularClientCode/angularApp/app/auth/storage/storage-persistance.service.ts:29-32 | updates exactly the prefixed backing entry; reading the key back gives the value, every other key reads as before |
| StoragePersistance.StoragePersistanceService.ResetStorageFlowData | src/AngularClientCode/angularApp/app/auth/storage/storage-persistance.service.ts:34-39 | the store becomes FlowDataReset of the old store: the four flow keys read null, all other keys as before |
| StoragePersistance.StoragePersistanceService.ResetAuthStateInStorage | src/AngularClientCode/angularApp/app/auth/storage/storage-persistance.service.ts:41-44 | the store becomes AuthStateReset of the old store: authzData and authnResult read '', all other keys as before, and no id or refresh token remains |
| StoragePersistance.StoragePersistanceService.GetAccessToken | src/AngularClientCode/angularApp/app/auth/storage/storage-persistance.service.ts:46-48 | exactly the value stored under the prefixed authzData key |
| StoragePersistance.StoragePersistanceService.GetIdToken | src/AngularClientCode/angularApp/app/auth/storage/storage-persistance.service.ts:50-52 | the id_token property of the stored authnResult when it is an object with one, and nothing otherwise (absent, null, '') |
| StoragePersistance.StoragePersistanceService.GetRefreshToken | src/AngularClientCode/angularApp/app/auth/storage/storage-persistance.service.ts:54-56 | the refresh_token property of the stored authnResult when it is an object with one, and nothing otherwise |

## Left out

- Cryptography: JWS verification (`KJUR.jws.JWS.verify` with `KEYUTIL.getKey`), `KJUR.crypto.Util.hashString` and `hextob64u` are not interpreted. They are function-typed parameters, so nothing is proved about the cryptography itself.
- `decodeURIComponent` is not interpreted. It is a parameter that gives nothing where JavaScript would throw a URIError.
- `generateCodeVerifier` is a SHA-256 plus base64url wrapper over the same uninterpreted library.
- `configValidateResponseType` depends only on `FlowHelper`, which is not part of this model.
- `TokenHelperService` is not part of this model. It decodes the token payload and header and computes the expiry date. The checks take decoded claims, the header and the expiry date as inputs, so `hasIdTokenExpired` takes the expiry date rather than the raw token.
- Logging: the `LoggerService` calls are diagnostic output and are not modelled. The one exception is the list of missing required claims, which `ValidateRequiredIdToken` returns.
- The wall clock is not read. The current time is the parameter `nowMs`.
- JavaScript numbers: claims and offsets are whole numbers of seconds. Fractional seconds, `NaN` and values that are not numbers are not modelled. So `|| 0` only maps an absent or zero value to 0.
- Claim and parameter types: values of unexpected JSON types are not modelled. This covers a numeric `iss`, a non-string scalar `aud`, a `null` or `undefined` local nonce or state, and an absent `at_hash`. The local nonce, the states and `at_hash` are strings.
- The dead branch `dateTimeIatIdToken == null` (token-validation.service.ts:177) can never be taken, and the model has no counterpart for it.
- The empty-header test uses the header's property names. The `constructor === Object` part is not modelled.
- The browser storage wrapper (browser-storage.service.ts) is not part of this model. It serialises values with JSON, turns falsy values into `null` on write, and returns `false` when Web Storage is unavailable. The backing store here is an abstract map that keeps exactly what is written.
- The boolean returned by the backing store's `write` is ignored by the service, and is not modelled.
- StoragePersistanceService.constructor: the client id is read once, when the service is built, and cannot change afterwards. The source reads `configurationProvider.openIDConfiguration?.clientId` again for every key (storage-persistance.service.ts:59), so a configuration that changes while the service lives would move its keys; the model assumes the configuration stays the same.
- ValidateIdTokenIatMaxOffset: the range of JavaScript dates is not modelled. When `|iat * 1000|` exceeds 8.64e15 ms, `setUTCSeconds` yields an Invalid Date, the difference is `NaN` and the source returns false; the model compares whole numbers and can return true there.
- ValidateSignatureIdToken: exceptions thrown by `KEYUTIL.getKey` or `KJUR.jws.JWS.verify` (token-validation.service.ts:341-342, 353-354) are not modelled. The verifier parameter is a total function that always answers true or false.
- The dependency-injection wiring (auth.module.ts) is not modelled.
- The flow orchestration (logoff and revocation, the code-flow callback, refresh-session handling) is exercised only by test files whose implementations are not part of this model, and it is not modelled.
