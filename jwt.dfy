/** The JWT lifecycle wrapper: input validation, the `throwOnError` switch,
    error wrapping, the `defaultExpiresIn` merge, the never-throwing decoder
    and the expiry arithmetic of section 4.1.4 of RFC 7519 (`exp` as
    NumericDate seconds). Signing, verification and parsing proper belong to
    the `jsonwebtoken` library, which appears here only as a `Library` of
    uninterpreted function values. */
module Jwt {
  import opened JsValues

  // Option keys the wrapper interprets itself.
  const ThrowOnErrorKey := "throwOnError"
  const ExpiresInKey := "expiresIn"
  const DefaultExpiresInKey := "defaultExpiresIn"
  const ExpKey := "exp"

  // Messages of the errors the wrapper raises.
  const InvalidTokenMessage := "Invalid token: Token must be a non-empty string"
  const VerifySecretMessage := "Invalid secret: Secret is required for token verification"
  const VerificationFailedPrefix := "JWT verification failed: "
  const VerifiedPayloadMessage := "Invalid payload: Expected object payload"
  const SignPayloadMessage := "Invalid payload: Payload must be an object"
  const SignSecretMessage := "Invalid secret: Secret is required for token signing"
  const SigningFailedPrefix := "JWT signing failed: "
  const NoTokenMessage := "JWT signing failed: No token generated"

  /** An error reported by the library; the wrapper reads only its message. */
  datatype LibError = LibError(message: string)

  /** What `jsonwebtoken.verify` passes to its callback: an error, or the decoded
      value (an object, a string, or `null`). */
  datatype VerifyReply = VerifyFailed(err: LibError) | Verified(decoded: JsValue)

  /** What `jsonwebtoken.sign` passes to its callback: an error, or a token that
      may be absent. */
  datatype SignReply = SignFailed(err: LibError) | Signed(token: Option<string>)

  /** What `jsonwebtoken.decode` does: throw, or return a value (`null` for
      text that is not a token). */
  datatype DecodeReply = DecodeThrew(err: LibError) | Decoded(decoded: JsValue)

  /** The three library entry points, uninterpreted. */
  datatype Library = Library(
    verify: (string, JsValue, map<string, JsValue>) -> VerifyReply,
    sign: (JsValue, JsValue, map<string, JsValue>) -> SignReply,
    decode: (string, map<string, JsValue>) -> DecodeReply)

  /** `JwtError`: a message and, when it wraps a library failure, that failure. */
  datatype JwtError = JwtError(message: string, originalError: Option<LibError>)

  /** Why a promise rejects: the environment guard failed, or a `JwtError`. */
  datatype Rejection = NotNodeEnvironment | Failed(error: JwtError)

  /** A settled promise. `ResolvedNull` is the `resolve(null)` of the non-throwing mode. */
  datatype Outcome<T> = Rejected(reason: Rejection) | Resolved(value: T) | ResolvedNull

  /** The `throwOnError ? reject(error) : resolve(null)` switch. */
  function Fail<T>(throwOnError: bool, error: JwtError): (r: Outcome<T>)
    ensures throwOnError <==> r.Rejected?
    ensures r.Rejected? ==> r.reason == Failed(error)
    ensures !r.Resolved?
  {
    if throwOnError then Rejected(Failed(error)) else ResolvedNull
  }

  /** A token passes `!token || typeof token !== 'string'` only as a non-empty string. */
  predicate IsTokenString(token: JsValue): (ok: bool)
    ensures ok <==> Truthy(token) && token.Str?
  {
    token.Str? && token.s != ""
  }

  /** A decoded value passes `!decoded || typeof decoded === 'string'` only when
      it is truthy and not a string. */
  predicate IsPayloadObject(decoded: JsValue): (ok: bool)
    ensures decoded.Obj? ==> ok
    ensures decoded.Undefined? || decoded.Null? || decoded.Str? ==> !ok
    ensures decoded.Num? || decoded.Bool? ==> (ok <==> Truthy(decoded))
  {
    Truthy(decoded) && !decoded.Str?
  }

  // ---------------------------------------------------------------- jwtVerify

  /** `const { throwOnError = true, ...verifyOptions } = options`: the default
      applies when the key is absent or `undefined`; any other value is read
      for its truthiness. */
  function ThrowOnError(options: map<string, JsValue>): (flag: bool)
    ensures Get(options, ThrowOnErrorKey) == Undefined ==> flag
    ensures Get(options, ThrowOnErrorKey) != Undefined ==> flag == Truthy(options[ThrowOnErrorKey])
  {
    var v := Get(options, ThrowOnErrorKey);
    if v == Undefined then true else Truthy(v)
  }

  /** The options handed to the library: every option except `throwOnError`. */
  function VerifyOptions(options: map<string, JsValue>): (forwarded: map<string, JsValue>)
    ensures ThrowOnErrorKey !in forwarded
    ensures forall k :: k in forwarded <==> k in options && k != ThrowOnErrorKey
    ensures forall k :: k in forwarded ==> forwarded[k] == options[k]
  {
    options - {ThrowOnErrorKey}
  }

  /** `jwtVerify(token, secret, options)`. */
  function JwtVerify(node: bool, lib: Library, token: JsValue, secret: JsValue,
                     options: map<string, JsValue>): (r: Outcome<JsValue>)
    ensures r == Rejected(NotNodeEnvironment) <==> !node
    ensures r.Resolved? ==> IsPayloadObject(r.value)
    ensures r.ResolvedNull? ==> !ThrowOnError(options)
    ensures r.Rejected? && r.reason.Failed? ==> ThrowOnError(options)
  {
    if !node then Rejected(NotNodeEnvironment)
    else
      var throwOnError := ThrowOnError(options);
      if !IsTokenString(token) then
        Fail(throwOnError, JwtError(InvalidTokenMessage, None))
      else if !Truthy(secret) then
        Fail(throwOnError, JwtError(VerifySecretMessage, None))
      else
        match lib.verify(token.s, secret, VerifyOptions(options))
        case VerifyFailed(err) =>
          Fail(throwOnError, JwtError(VerificationFailedPrefix + err.message, Some(err)))
        case Verified(decoded) =>
          if !IsPayloadObject(decoded) then Fail(throwOnError, JwtError(VerifiedPayloadMessage, None))
          else Resolved(decoded)
  }

  /** An invalid token decides the outcome: neither the secret nor the library matters. */
  lemma VerifyChecksTokenFirst(lib1: Library, lib2: Library, token: JsValue,
                               secret1: JsValue, secret2: JsValue, options: map<string, JsValue>)
    requires !IsTokenString(token)
    ensures JwtVerify(true, lib1, token, secret1, options) == JwtVerify(true, lib2, token, secret2, options)
    ensures JwtVerify(true, lib1, token, secret1, options)
         == Fail(ThrowOnError(options), JwtError(InvalidTokenMessage, None))
  {
  }

  /** A valid token with a falsy secret is refused before the library is consulted. */
  lemma VerifyChecksSecretBeforeLibrary(lib1: Library, lib2: Library, token: JsValue,
                                        secret: JsValue, options: map<string, JsValue>)
    requires IsTokenString(token) && !Truthy(secret)
    ensures JwtVerify(true, lib1, token, secret, options) == JwtVerify(true, lib2, token, secret, options)
    ensures JwtVerify(true, lib1, token, secret, options)
         == Fail(ThrowOnError(options), JwtError(VerifySecretMessage, None))
  {
  }

  /** A library failure becomes a `JwtError` that keeps the library's message
      behind a fixed prefix and keeps the library error itself. */
  lemma VerifyWrapsLibraryError(lib: Library, token: JsValue, secret: JsValue,
                                options: map<string, JsValue>)
    requires IsTokenString(token) && Truthy(secret)
    requires lib.verify(token.s, secret, VerifyOptions(options)).VerifyFailed?
    ensures var err := lib.verify(token.s, secret, VerifyOptions(options)).err;
            var r := JwtVerify(true, lib, token, secret, options);
            && (r.Rejected? <==> ThrowOnError(options))
            && (r.Rejected? ==> && r.reason.Failed?
                                && r.reason.error.originalError == Some(err)
                                && |VerificationFailedPrefix| <= |r.reason.error.message|
                                && r.reason.error.message[..|VerificationFailedPrefix|] == VerificationFailedPrefix
                                && r.reason.error.message[|VerificationFailedPrefix|..] == err.message)
  {
  }

  /** Exactly when verification resolves with a payload, and that it is the
      library's decoded value, unchanged. */
  lemma VerifyResolvesLibraryPayload(node: bool, lib: Library, token: JsValue, secret: JsValue,
                                     options: map<string, JsValue>)
    ensures var r := JwtVerify(node, lib, token, secret, options);
            r.Resolved? <==>
              && node && IsTokenString(token) && Truthy(secret)
              && lib.verify(token.s, secret, VerifyOptions(options)).Verified?
              && IsPayloadObject(lib.verify(token.s, secret, VerifyOptions(options)).decoded)
    ensures var r := JwtVerify(node, lib, token, secret, options);
            r.Resolved? ==> r.value == lib.verify(token.s, secret, VerifyOptions(options)).decoded
  {
  }

  /** A falsy or string value from the library is reported as an invalid payload. */
  lemma VerifyRejectsNonObjectPayload(lib: Library, token: JsValue, secret: JsValue,
                                      options: map<string, JsValue>)
    requires IsTokenString(token) && Truthy(secret)
    requires lib.verify(token.s, secret, VerifyOptions(options)).Verified?
    requires !IsPayloadObject(lib.verify(token.s, secret, VerifyOptions(options)).decoded)
    ensures JwtVerify(true, lib, token, secret, options)
         == Fail(ThrowOnError(options), JwtError(VerifiedPayloadMessage, None))
  {
  }

  /** `throwOnError` only selects how a failure is reported: with it set to
      `false` every `JwtError` rejection turns into `resolve(null)`, while a
      success and an environment failure stay as they are. Omitting the key
      behaves as `true`. */
  lemma VerifyThrowOnErrorOnlySwitchesFailures(node: bool, lib: Library, token: JsValue,
                                               secret: JsValue, options: map<string, JsValue>)
    requires ThrowOnErrorKey !in options
    ensures var strict := JwtVerify(node, lib, token, secret, options);
            var lenient := JwtVerify(node, lib, token, secret, options[ThrowOnErrorKey := Bool(false)]);
            && JwtVerify(node, lib, token, secret, options[ThrowOnErrorKey := Bool(true)]) == strict
            && !strict.ResolvedNull?
            && (strict.Resolved? ==> lenient == strict)
            && (strict == Rejected(NotNodeEnvironment) ==> lenient == strict)
            && (strict.Rejected? && strict.reason.Failed? ==> lenient == ResolvedNull)
  {
    assert VerifyOptions(options[ThrowOnErrorKey := Bool(false)]) == VerifyOptions(options);
    assert VerifyOptions(options[ThrowOnErrorKey := Bool(true)]) == VerifyOptions(options);
  }

  // ------------------------------------------------------------------ jwtSign

  /** The `expiresIn` the library should see: the caller's when truthy, else
      `defaultExpiresIn` when truthy, else the caller's (possibly `undefined`). */
  function EffectiveExpiresIn(options: map<string, JsValue>): (e: JsValue)
    ensures e == Get(options, ExpiresInKey) || e == Get(options, DefaultExpiresInKey)
    ensures Truthy(e) <==> Truthy(Get(options, ExpiresInKey)) || Truthy(Get(options, DefaultExpiresInKey))
    ensures Truthy(Get(options, ExpiresInKey)) ==> e == Get(options, ExpiresInKey)
    ensures !Truthy(Get(options, DefaultExpiresInKey)) ==> e == Get(options, ExpiresInKey)
  {
    var expiresIn := Get(options, ExpiresInKey);
    var fallback := Get(options, DefaultExpiresInKey);
    if Truthy(expiresIn) then expiresIn
    else if Truthy(fallback) then fallback
    else expiresIn
  }

  /** `const { defaultExpiresIn, ...signOptions } = options` followed by
      `{ ...signOptions, ...(defaultExpiresIn && !signOptions.expiresIn && { expiresIn: defaultExpiresIn }) }`.
      Spreading the falsy short-circuit value adds nothing. */
  function SignOptions(options: map<string, JsValue>): (forwarded: map<string, JsValue>)
    ensures DefaultExpiresInKey !in forwarded
    ensures Get(forwarded, ExpiresInKey) == EffectiveExpiresIn(options)
    ensures ExpiresInKey in forwarded <==>
              ExpiresInKey in options || (Truthy(Get(options, DefaultExpiresInKey)) && !Truthy(Get(options, ExpiresInKey)))
    ensures forall k :: k != ExpiresInKey && k != DefaultExpiresInKey ==>
              (k in forwarded <==> k in options) && (k in forwarded ==> forwarded[k] == options[k])
  {
    var signOptions := options - {DefaultExpiresInKey};
    var defaultExpiresIn := Get(options, DefaultExpiresInKey);
    if Truthy(defaultExpiresIn) && !Truthy(Get(signOptions, ExpiresInKey)) then
      signOptions[ExpiresInKey := defaultExpiresIn]
    else
      signOptions
  }

  /** `defaultExpiresIn` never overrides a truthy `expiresIn`. */
  lemma DefaultNeverOverridesExpiresIn(options: map<string, JsValue>)
    requires Truthy(Get(options, ExpiresInKey))
    ensures SignOptions(options) == options - {DefaultExpiresInKey}
  {
  }

  /** Without a truthy `defaultExpiresIn` the options reach the library
      unchanged (apart from that key being dropped). */
  lemma SignOptionsWithoutDefault(options: map<string, JsValue>)
    requires !Truthy(Get(options, DefaultExpiresInKey))
    ensures SignOptions(options) == options - {DefaultExpiresInKey}
  {
  }

  /** `jwtSign(payload, secret, options)`. Signing has no non-throwing mode. */
  function JwtSign(node: bool, lib: Library, payload: JsValue, secret: JsValue,
                   options: map<string, JsValue>): (r: Outcome<string>)
    ensures r == Rejected(NotNodeEnvironment) <==> !node
    ensures !r.ResolvedNull?
    ensures r.Resolved? ==> r.value != ""
  {
    if !node then Rejected(NotNodeEnvironment)
    else if !payload.Obj? then Rejected(Failed(JwtError(SignPayloadMessage, None)))
    else if !Truthy(secret) then Rejected(Failed(JwtError(SignSecretMessage, None)))
    else
      match lib.sign(payload, secret, SignOptions(options))
      case SignFailed(err) => Rejected(Failed(JwtError(SigningFailedPrefix + err.message, Some(err))))
      case Signed(token) =>
        if token.None? || token.value == "" then Rejected(Failed(JwtError(NoTokenMessage, None)))
        else Resolved(token.value)
  }

  /** A payload that is not an object is refused first, whatever the secret,
      the options or the library. */
  lemma SignChecksPayloadFirst(lib1: Library, lib2: Library, payload: JsValue,
                               secret1: JsValue, secret2: JsValue,
                               options1: map<string, JsValue>, options2: map<string, JsValue>)
    requires !payload.Obj?
    ensures JwtSign(true, lib1, payload, secret1, options1) == JwtSign(true, lib2, payload, secret2, options2)
    ensures JwtSign(true, lib1, payload, secret1, options1) == Rejected(Failed(JwtError(SignPayloadMessage, None)))
  {
  }

  /** An object payload with a falsy secret is refused before the library is consulted. */
  lemma SignChecksSecretBeforeLibrary(lib1: Library, lib2: Library, payload: JsValue,
                                      secret: JsValue, options: map<string, JsValue>)
    requires payload.Obj? && !Truthy(secret)
    ensures JwtSign(true, lib1, payload, secret, options) == JwtSign(true, lib2, payload, secret, options)
    ensures JwtSign(true, lib1, payload, secret, options) == Rejected(Failed(JwtError(SignSecretMessage, None)))
  {
  }

  /** The empty object passes the payload check: with a truthy secret the
      library decides the outcome. */
  lemma SignAcceptsEmptyObject(lib: Library, secret: JsValue, options: map<string, JsValue>)
    requires Truthy(secret)
    ensures var r := JwtSign(true, lib, Obj(map[]), secret, options);
            r.Rejected? ==> r.reason.Failed? && r.reason.error.message != SignPayloadMessage && r.reason.error.message != SignSecretMessage
  {
    var r := JwtSign(true, lib, Obj(map[]), secret, options);
    if r.Rejected? {
      match lib.sign(Obj(map[]), secret, SignOptions(options))
      case SignFailed(err) =>
        assert r.reason.error.message[0] == SigningFailedPrefix[0] != SignPayloadMessage[0];
        assert SignPayloadMessage[0] == SignSecretMessage[0];
      case Signed(token) =>
    }
  }

  /** Exactly when signing resolves, and that the token is the library's token, unchanged. */
  lemma SignResolvesLibraryToken(node: bool, lib: Library, payload: JsValue, secret: JsValue,
                                 options: map<string, JsValue>)
    ensures var r := JwtSign(node, lib, payload, secret, options);
            var reply := lib.sign(payload, secret, SignOptions(options));
            && (r.Resolved? <==>
                  node && payload.Obj? && Truthy(secret) && reply.Signed? && reply.token.Some? && reply.token.value != "")
            && (r.Resolved? ==> reply == Signed(Some(r.value)))
  {
  }

  /** A library failure is wrapped with the signing prefix and keeps the original
      error; an absent or empty token is reported as "No token generated". */
  lemma SignWrapsLibraryFailure(lib: Library, payload: JsValue, secret: JsValue,
                                options: map<string, JsValue>)
    requires payload.Obj? && Truthy(secret)
    ensures var r := JwtSign(true, lib, payload, secret, options);
            var reply := lib.sign(payload, secret, SignOptions(options));
            && (reply.SignFailed? ==>
                  && r.Rejected? && r.reason.Failed?
                  && r.reason.error.originalError == Some(reply.err)
                  && r.reason.error.message[..|SigningFailedPrefix|] == SigningFailedPrefix
                  && r.reason.error.message[|SigningFailedPrefix|..] == reply.err.message)
            && (reply.Signed? && !(reply.token.Some? && Truthy(Str(reply.token.value))) ==>
                  r == Rejected(Failed(JwtError(NoTokenMessage, None))))
  {
  }

  // ---------------------------------------------------------------- jwtDecode

  /** `jwtDecode(token, options)`: never throws; `null` (here `None`) for a
      token that is not a non-empty string, a falsy library result, or a
      library exception. */
  function JwtDecode(lib: Library, token: JsValue, options: map<string, JsValue>): (r: Option<JsValue>)
    ensures r.Some? ==> IsTokenString(token) && Truthy(r.value)
  {
    if !IsTokenString(token) then None
    else
      match lib.decode(token.s, options)
      case DecodeThrew(_) => None
      case Decoded(decoded) => if !Truthy(decoded) then None else Some(decoded)
  }

  /** The decoder returns the library's value unchanged exactly when the library
      returned a truthy value, and `null` in every other case. */
  lemma DecodeReturnsLibraryValue(lib: Library, token: JsValue, options: map<string, JsValue>)
    ensures var r := JwtDecode(lib, token, options);
            && (r.Some? <==>
                  IsTokenString(token) && lib.decode(token.s, options).Decoded? && Truthy(lib.decode(token.s, options).decoded))
            && (r.Some? ==> lib.decode(token.s, options) == Decoded(r.value))
  {
  }

  /** Without a non-empty string token the library is never consulted. */
  lemma DecodeChecksTokenFirst(lib1: Library, lib2: Library, token: JsValue, options: map<string, JsValue>)
    requires !IsTokenString(token)
    ensures JwtDecode(lib1, token, options) == JwtDecode(lib2, token, options) == None
  {
  }

  // ---------------------------------------------------------- expiry helpers

  /** `Math.floor(Date.now() / 1000)`: the clock in whole seconds. */
  function CurrentTime(nowMs: int): (seconds: int)
    ensures seconds * 1000 <= nowMs < seconds * 1000 + 1000
  {
    nowMs / 1000
  }

  /** The `exp` claim of the decoded payload when the helpers go on to use it:
      decoding succeeded and `decoded.exp` is truthy. */
  function ExpClaim(lib: Library, token: JsValue): (exp: Option<JsValue>)
    ensures exp.Some? ==> Truthy(exp.value)
  {
    var decoded := JwtDecode(lib, token, map[]);
    if decoded.None? || !Truthy(Member(decoded.value, ExpKey)) then None
    else Some(Member(decoded.value, ExpKey))
  }

  /** `jwtIsExpired(token)` at clock reading `nowMs` milliseconds. */
  function JwtIsExpired(lib: Library, token: JsValue, nowMs: int): (r: Option<bool>)
    ensures r.None? <==> ExpClaim(lib, token).None?
  {
    match ExpClaim(lib, token)
    case None => None
    case Some(exp) =>
      var currentTime := CurrentTime(nowMs);
      match ToNumber(exp)
      case None => Some(false)
      case Some(n) => Some(n < currentTime as real)
  }

  /** `jwtTimeUntilExpiry(token)` at clock reading `nowMs` milliseconds. */
  function JwtTimeUntilExpiry(lib: Library, token: JsValue, nowMs: int): (r: Option<real>)
    ensures r.None? <==> ExpClaim(lib, token).None?
    ensures r.Some? ==> r.value >= 0.0
  {
    match ExpClaim(lib, token)
    case None => None
    case Some(exp) =>
      var currentTime := CurrentTime(nowMs);
      match ToNumber(exp)
      case None => Some(0.0)
      case Some(n) =>
        var timeLeft := n - currentTime as real;
        Some(if timeLeft > 0.0 then timeLeft else 0.0)
  }

  /** For a numeric `exp` claim: expired is `exp < now`, and the time left is
      `max(exp - now, 0)`, `now` being the clock in whole seconds. */
  lemma NumericExpiry(lib: Library, token: JsValue, nowMs: int, exp: real)
    requires ExpClaim(lib, token) == Some(Num(exp))
    ensures JwtIsExpired(lib, token, nowMs) == Some(exp < (nowMs / 1000) as real)
    ensures JwtTimeUntilExpiry(lib, token, nowMs)
         == Some(if exp > (nowMs / 1000) as real then exp - (nowMs / 1000) as real else 0.0)
  {
  }

  /** A token without a decodable truthy `exp` (so also `exp: 0`) gives `null`
      from both helpers. */
  lemma MissingExpiryGivesNull(lib: Library, token: JsValue, nowMs: int)
    requires JwtDecode(lib, token, map[]).None? || !Truthy(Member(JwtDecode(lib, token, map[]).value, ExpKey))
    ensures JwtIsExpired(lib, token, nowMs).None? && JwtTimeUntilExpiry(lib, token, nowMs).None?
  {
  }

  /** Read against the same clock, an expired token has no time left, and a
      token with time left is not expired. */
  lemma ExpiredMeansNoTimeLeft(lib: Library, token: JsValue, nowMs: int)
    ensures JwtIsExpired(lib, token, nowMs) == Some(true) ==> JwtTimeUntilExpiry(lib, token, nowMs) == Some(0.0)
    ensures (var left := JwtTimeUntilExpiry(lib, token, nowMs);
             left.Some? && left.value > 0.0 ==> JwtIsExpired(lib, token, nowMs) == Some(false))
  {
  }

  /** The two helpers disagree at one point: a token that expires in the
      current second, or whose `exp` is not a number, is reported as not
      expired and yet as having no time left. */
  lemma NotExpiredWithNoTimeLeft(lib: Library, token: JsValue, nowMs: int)
    requires ExpClaim(lib, token).Some?
    ensures (JwtIsExpired(lib, token, nowMs) == Some(false) && JwtTimeUntilExpiry(lib, token, nowMs) == Some(0.0))
        <==> (var n := ToNumber(ExpClaim(lib, token).value); n.None? || n.value == (nowMs / 1000) as real)
  {
  }

  /** Once expired, a token stays expired as the clock advances. */
  lemma ExpiryIsPermanent(lib: Library, token: JsValue, nowMs: int, laterMs: int)
    requires nowMs <= laterMs
    requires JwtIsExpired(lib, token, nowMs) == Some(true)
    ensures JwtIsExpired(lib, token, laterMs) == Some(true)
  {
  }

  // ------------------------------------------------------------ jwt namespace

  /** The `jwt` object: the same five functions under shorter names. */
  datatype JwtNamespace = JwtNamespace(
    verify: (bool, Library, JsValue, JsValue, map<string, JsValue>) -> Outcome<JsValue>,
    sign: (bool, Library, JsValue, JsValue, map<string, JsValue>) -> Outcome<string>,
    decode: (Library, JsValue, map<string, JsValue>) -> Option<JsValue>,
    isExpired: (Library, JsValue, int) -> Option<bool>,
    timeUntilExpiry: (Library, JsValue, int) -> Option<real>)

  const Namespace := JwtNamespace(JwtVerify, JwtSign, JwtDecode, JwtIsExpired, JwtTimeUntilExpiry)

  /** Every member of the namespace behaves exactly as the free function it aliases. */
  lemma NamespaceAliasesFreeFunctions(node: bool, lib: Library, token: JsValue, payload: JsValue,
                                      secret: JsValue, options: map<string, JsValue>, nowMs: int)
    ensures Namespace.verify(node, lib, token, secret, options) == JwtVerify(node, lib, token, secret, options)
    ensures Namespace.sign(node, lib, payload, secret, options) == JwtSign(node, lib, payload, secret, options)
    ensures Namespace.decode(lib, token, options) == JwtDecode(lib, token, options)
    ensures Namespace.isExpired(lib, token, nowMs) == JwtIsExpired(lib, token, nowMs)
    ensures Namespace.timeUntilExpiry(lib, token, nowMs) == JwtTimeUntilExpiry(lib, token, nowMs)
  {
  }
}
