# advanced-js-kit core, modelled in Dafny

This project models three parts of the `advanced-js-kit` TypeScript toolkit and proves properties of them:

- **The JWT lifecycle wrapper** (`src/jwt/jwt.ts`). It covers `jwtVerify`, `jwtSign`, `jwtDecode`, `jwtIsExpired`, `jwtTimeUntilExpiry`, the `JwtError` type and the `jwt` namespace object. The wrapper delegates the cryptography and the token parsing to the `jsonwebtoken` library. The model keeps only what the wrapper decides itself:
  - the order of its input checks;
  - the `throwOnError` switch between rejecting and resolving `null`;
  - how library errors are wrapped;
  - how `defaultExpiresIn` is merged into the options passed on;
  - the decoder that never throws;
  - the `exp` arithmetic. `exp` is the NumericDate expiry claim of section 4.1.4 of RFC 7519.
- **`clamp` and `inRange`** (`src/number/clamp.ts`).
- **`capitalize` and `capitalizeWords`** (`src/universal/string/capitalize.ts`).

All three source files are pure, so the model is written as functions and lemmas. The files are:

- `js_values.dfy`: module `JsValues`. The part of JavaScript the source relies on: payload and option values, truthiness (`!x`), property reads that give `undefined`, and the coercion of a value to a number.
- `jwt.dfy`: module `Jwt`. The `jsonwebtoken` functions `verify`, `sign` and `decode` are fields of a `Library` value. Each field is an uninterpreted function that returns an error or a value. A settled promise is an `Outcome`: `Rejected(reason)`, `Resolved(value)` or `ResolvedNull`. The environment guard `assertNodeEnvironment` is a boolean parameter `node`. The clock `Date.now()` is a parameter `nowMs`. The whole-second time is `nowMs / 1000`; Dafny's division rounds down like `Math.floor` here.
- `clamp.dfy`: module `NumberClamp`, over `real`.
- `capitalize.dfy`: module `StringCapitalize`, with ASCII upper-casing.

Behaviour of the code worth noting:

- `defaultExpiresIn` replaces any falsy `expiresIn` option, including `0` and `""`, not only an absent one. The comment at src/jwt/jwt.ts:36 says the default applies "if not specified in payload", but src/jwt/jwt.ts:153 tests the `expiresIn` option, not the payload.
- `jwtSign` accepts the empty object `{}` as a payload.
- An `exp` claim of `0` counts as missing.
- `src/jwt/jwt.ts` defines only the throwing form of each operation; there is no result-envelope form with error codes.

## Model

| member | source | states |
|---|---|---|
| JsValues.Truthy | src/jwt/jwt.ts:74-91 | JavaScript `!x`: a value is falsy exactly when it is `undefined`, `null`, `false`, `0` or `""`. |
| JsValues.Get | src/jwt/jwt.ts:71-153 | Reading an option gives its value when present and `undefined` when absent. |
| JsValues.Member | src/jwt/jwt.ts:230 | `decoded.exp` is the object's own `exp` field when present, and `undefined` otherwise or on a non-object. |
| JsValues.ToNumber | src/jwt/jwt.ts:235 | JavaScript's conversion by `<` and `-` for numbers, booleans and `null`: a number stays itself, `true`/`false` become 1/0, and `null` becomes 0. `undefined` gives NaN. Strings and arrays are simplified to NaN. |
| Jwt.IsTokenString | src/jwt/jwt.ts:74 | A token passes the truthiness and `typeof` check exactly when it is a truthy string. |
| Jwt.IsPayloadObject | src/jwt/jwt.ts:91 | Every object passes the payload check. `undefined`, `null` and every string fail it. A number or boolean passes exactly when it is truthy. |
| Jwt.Fail | src/jwt/jwt.ts:74-94 | A failure rejects with that `JwtError` exactly when `throwOnError` is set, and otherwise resolves `null`. It never resolves a value. |
| Jwt.ThrowOnError | src/jwt/jwt.ts:71 | `throwOnError` defaults to true when absent or `undefined`. Any other value is read for its truthiness. |
| Jwt.VerifyOptions | src/jwt/jwt.ts:71 | The options sent to the library are all the caller's options with the same values, minus `throwOnError`. |
| Jwt.JwtVerify | src/jwt/jwt.ts:63-99 | Rejects for the environment guard exactly when not on Node. A resolved value is a truthy non-string payload. `null` is resolved only when `throwOnError` is off. A `JwtError` rejection happens only when it is on. |
| Jwt.VerifyChecksTokenFirst | src/jwt/jwt.ts:74-77 | An empty or non-string token gives the invalid-token failure, whatever the secret and the library. |
| Jwt.VerifyChecksSecretBeforeLibrary | src/jwt/jwt.ts:79-84 | A valid token with a falsy secret gives the invalid-secret failure, whatever the library returns. |
| Jwt.VerifyWrapsLibraryError | src/jwt/jwt.ts:84-88 | A library error is rejected when `throwOnError` is on. The message is "JWT verification failed: " followed by the library's message, and `originalError` is the library error. |
| Jwt.VerifyRejectsNonObjectPayload | src/jwt/jwt.ts:91-94 | A falsy or string decoded value gives the "Invalid payload" failure. |
| Jwt.VerifyResolvesLibraryPayload | src/jwt/jwt.ts:84-96 | Verification resolves exactly when the guard, the token check and the secret check pass and the library returns a truthy non-string value. The resolved value is that value, unchanged. |
| Jwt.VerifyThrowOnErrorOnlySwitchesFailures | src/jwt/jwt.ts:71-96 | Leaving `throwOnError` out behaves as `true` and never resolves `null`. Setting it to `false` keeps successes and environment failures and turns every `JwtError` rejection into `null`. |
| Jwt.EffectiveExpiresIn | src/jwt/jwt.ts:153 | The effective `expiresIn` is the caller's `expiresIn` or `defaultExpiresIn`. It is truthy exactly when one of them is. It is the caller's `expiresIn` whenever that is truthy, and also whenever `defaultExpiresIn` is falsy. |
| Jwt.SignOptions | src/jwt/jwt.ts:139-154 | `defaultExpiresIn` is never passed on. The `expiresIn` passed on is `expiresIn` if truthy, else `defaultExpiresIn` if truthy, else the original `expiresIn`. Every other option is passed through unchanged. |
| Jwt.DefaultNeverOverridesExpiresIn | src/jwt/jwt.ts:150-154 | With a truthy `expiresIn`, the options passed on are the caller's minus `defaultExpiresIn`. |
| Jwt.SignOptionsWithoutDefault | src/jwt/jwt.ts:150-154 | Without a truthy `defaultExpiresIn`, the options passed on are the caller's minus `defaultExpiresIn`. |
| Jwt.JwtSign | src/jwt/jwt.ts:131-168 | Rejects for the environment guard exactly when not on Node. It never resolves `null`, and a resolved token is never empty. |
| Jwt.SignChecksPayloadFirst | src/jwt/jwt.ts:142-144 | A null or non-object payload gives the invalid-payload rejection, whatever the secret, the options and the library. |
| Jwt.SignChecksSecretBeforeLibrary | src/jwt/jwt.ts:146-148 | An object payload with a falsy secret gives the invalid-secret rejection, whatever the library does. |
| Jwt.SignAcceptsEmptyObject | src/jwt/jwt.ts:142-148 | `{}` with a truthy secret is never rejected for its payload or its secret. |
| Jwt.SignResolvesLibraryToken | src/jwt/jwt.ts:156-166 | Signing resolves exactly when all checks pass and the library returns a non-empty token. The resolved token is the library's token, unchanged. |
| Jwt.SignWrapsLibraryFailure | src/jwt/jwt.ts:156-163 | A library error rejects with "JWT signing failed: " followed by its message and keeps it as `originalError`. An absent or empty token rejects with "No token generated". |
| Jwt.JwtDecode | src/jwt/jwt.ts:188-207 | The decoder has no failure channel. A result is present only for a non-empty string token, and the result is truthy. |
| Jwt.DecodeReturnsLibraryValue | src/jwt/jwt.ts:192-206 | A value is returned exactly when the library returns a truthy value without throwing, and it is that value. Otherwise the result is `null`. |
| Jwt.DecodeChecksTokenFirst | src/jwt/jwt.ts:193-195 | An empty or non-string token gives `null` without consulting the library. |
| Jwt.CurrentTime | src/jwt/jwt.ts:234 | The whole-second clock is the floor of milliseconds divided by 1000. |
| Jwt.ExpClaim | src/jwt/jwt.ts:228-232 | The `exp` used by the helpers is truthy. |
| Jwt.JwtIsExpired | src/jwt/jwt.ts:227-236 | The result is `null` exactly when decoding fails or `exp` is missing or falsy. |
| Jwt.JwtTimeUntilExpiry | src/jwt/jwt.ts:252-263 | The result is `null` under the same condition as for `jwtIsExpired`. Otherwise it is never negative. |
| Jwt.NumericExpiry | src/jwt/jwt.ts:227-263 | For a numeric `exp`, "expired" is `exp < now`, and the time left is `max(exp - now, 0)`. |
| Jwt.MissingExpiryGivesNull | src/jwt/jwt.ts:228-257 | A failed decode, or a missing or zero `exp`, makes both helpers return `null`. |
| Jwt.ExpiredMeansNoTimeLeft | src/jwt/jwt.ts:227-263 | At the same clock reading, an expired token has 0 seconds left, and a token with time left is not expired. |
| Jwt.NotExpiredWithNoTimeLeft | src/jwt/jwt.ts:227-263 | Both "not expired" and "0 seconds left" hold exactly when `exp` equals the current second or is not a number. |
| Jwt.ExpiryIsPermanent | src/jwt/jwt.ts:234-235 | A token that is expired stays expired at every later clock reading. |
| Jwt.NamespaceAliasesFreeFunctions | src/jwt/jwt.ts:277-307 | Each of the five members of `jwt` gives the same result as the free function it aliases. |
| NumberClamp.Max | src/number/clamp.ts:17 | `Math.max` is an upper bound of both arguments and equals one of them. |
| NumberClamp.Min | src/number/clamp.ts:17 | `Math.min` is a lower bound of both arguments and equals one of them. |
| NumberClamp.Clamp | src/number/clamp.ts:8-18 | Throws the bounds-order error exactly when `lower > upper`. Otherwise the result lies in `[lower, upper]`: the number itself when inside, `lower` below, `upper` above. |
| NumberClamp.InRange | src/number/clamp.ts:27-37 | Throws the bounds-order error exactly when `lower > upper`. |
| NumberClamp.ClampIdempotent | src/number/clamp.ts:17 | Clamping a clamped number gives the same result. |
| NumberClamp.InRangeIffClampFixes | src/number/clamp.ts:13-36 | Both functions throw on the same inputs. Otherwise `inRange` holds exactly when `clamp` returns the number unchanged, which is exactly when `lower <= number <= upper`. |
| NumberClamp.ClampMonotone | src/number/clamp.ts:17 | A larger number never clamps to a smaller result. |
| NumberClamp.ClampExample | test-imports.ts:28 | `clamp(15, 0, 10)` is 10. |
| StringCapitalize.IsLowerAscii | src/universal/string/capitalize.ts:15 | The characters upper-casing changes here are ASCII only, and each lies 32 code points above a letter in `A`..`Z`. `A`, `Z`, `_` and `0` are not among them. |
| StringCapitalize.IsWordChar | src/universal/string/capitalize.ts:28 | The class `\w` holds only ASCII characters. It contains `a`..`z` and `_`, and excludes space, `-` and `.`. |
| StringCapitalize.AtWordStart | src/universal/string/capitalize.ts:28 | A `\b\w` match is a word character. At index 0 every word character matches. A character right after a word character never matches. |
| StringCapitalize.ToUpper | src/universal/string/capitalize.ts:15 | The result is never a lower-case ASCII letter. `a`..`z` map to `A`..`Z`, and every other character is unchanged. |
| StringCapitalize.ToUpperKeepsWordClass | src/universal/string/capitalize.ts:28 | Upper-casing keeps a character inside or outside `\w` and is idempotent. |
| StringCapitalize.Capitalize | src/universal/string/capitalize.ts:6-16 | `""` stays `""`. The length is kept, the first character is upper-cased, and every later character is unchanged. |
| StringCapitalize.CapitalizeIdempotent | src/universal/string/capitalize.ts:15 | Capitalizing twice is the same as capitalizing once. |
| StringCapitalize.CapitalizeWords | src/universal/string/capitalize.ts:23-29 | The length is preserved. |
| StringCapitalize.CapitalizeWordsAfter | src/universal/string/capitalize.ts:28 | The scan that carries the class of the previous character preserves length. |
| StringCapitalize.CapitalizeWordsAfterAt | src/universal/string/capitalize.ts:28 | Each output character of the scan is the upper-cased input exactly when it is a word character not preceded by one. Otherwise it is the input character. |
| StringCapitalize.CapitalizeWordsAt | src/universal/string/capitalize.ts:28 | Each character at a word start (index 0 or after a non-`\w` character) is upper-cased. Every other character is unchanged. |
| StringCapitalize.CapitalizeWordsKeepsWordStarts | src/universal/string/capitalize.ts:28 | The output has its word starts at the same positions as the input. |
| StringCapitalize.CapitalizeWordsIdempotent | src/universal/string/capitalize.ts:28 | Applying `capitalizeWords` twice gives the same result as applying it once. |
| StringCapitalize.CapitalizeAfterCapitalizeWords | src/universal/string/capitalize.ts:15-28 | `capitalize` leaves the output of `capitalizeWords` unchanged. |
| StringCapitalize.CapitalizeWordsEmpty | src/universal/string/capitalize.ts:28 | `""` stays `""`. |

## Left out

- The `jsonwebtoken` library: HMAC/RSA/EC signatures, base64url and JSON decoding, and the checks on `iss`, `aud`, `nbf` and `exp`. These are foreign code, so `Library` leaves them uninterpreted. No sign/verify round trip is stated because it depends entirely on that library.
- A synchronous exception thrown by `jsonwebtoken.verify` or `jsonwebtoken.sign` inside the promise executor is not modelled. Only errors passed to the callback are.
- `assertNodeEnvironment` is defined in `src/utils/environment`, which is not part of this model. Its failure is `Rejected(NotNodeEnvironment)`. The type and message of the error it throws are not modelled.
- Promises, async timing and callbacks are modelled only as the final settled outcome.
- Passing `null` as the options argument is not modelled. In the source, destructuring it throws a `TypeError`.
- JsValues.ToNumber: every string, array and object gives NaN. JavaScript converts a numeric string such as `"1700000000"` to that number, the empty array `[]` to 0, and a one-element array to the number its element's string form gives (`[7]` gives 7, `[true]` and `["x"]` give NaN).
- Jwt.JwtIsExpired: an `exp` claim that is a string, an array or an object is treated as NaN, as in JsValues.ToNumber. `[]` becomes 0, so `[] < now` is true in JavaScript, while the model answers false. A JSON number too large for a double (Infinity) is also not modelled.
- Jwt.JwtTimeUntilExpiry: the same simplification of how a non-number `exp` is converted, `[]` included.
- Jwt.JwtTimeUntilExpiry: numbers are exact reals. The source's `exp - now` is a double subtraction, which rounds once its operands are beyond 2^53. There, `max(exp - now, 0)` in Jwt.NumericExpiry holds only up to that rounding.
- Jwt.JwtIsExpired: `exp < now` is compared on reals. A comparison of two doubles is exact, so this agrees with the source for every double `exp`.
- JsValues.JsValue has no NaN, -0, BigInt, symbol or function values. The wrapper's decisions lose nothing by this. NaN, -0 and `0n` are falsy like 0 in every truthiness check (token, secret, `throwOnError`, `expiresIn`, `defaultExpiresIn`, `exp`). A non-zero BigInt is truthy like any non-zero number. A function or symbol payload fails the `typeof payload !== 'object'` test like every other non-object. What the model does not keep is the exact forwarded value, for example `expiresIn: NaN` rather than `0`.
- JsValues.Member reads only an object's own fields. Prototype properties, and the properties of strings such as `length`, are not modelled. The helpers only read `exp`, which neither of those provides.
- The result-envelope API (`isJwtSuccess`, `isJwtError`, `unwrapJwtResult`, `JwtErrorCode`, object-argument `jwtSign`/`jwtVerify`) is not defined in `src/jwt/jwt.ts`, so it has no source here to model.
- The example and demo scripts and the re-export barrels (`src/index.ts`, `src/node.ts`, `src/node/index.ts`, `src/browser.ts`) are I/O only or contain no logic.
- The utilities `chunk`, `sleep`, `convertToSeconds`, `isPortInUse` and `findAvailablePort` are outside this model.
- NumberClamp.Clamp: numbers are reals. NaN, ±Infinity and the sign of zero in IEEE-754 arithmetic are not modelled.
- NumberClamp.InRange: the same restriction to reals.
- The `typeof` argument checks in `clamp`, `inRange`, `capitalize` and `capitalizeWords` always pass here, because the Dafny types already rule out other arguments.
- StringCapitalize.ToUpper: only ASCII `a`..`z` are upper-cased. Any other character is treated as having no upper-case form. Full Unicode `toUpperCase` can change other letters and even the length (`ß` becomes `SS`).
- Strings are sequences of Unicode characters rather than UTF-16 code units. The two agree on ASCII text.
