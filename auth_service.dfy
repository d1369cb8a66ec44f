/** The OAuth side of the server: login and token endpoints per org type, the authorize URL
    with its PKCE parameters, the token requests, the session's authentication status, logout
    and the Salesforce logout URL. The HTTP calls themselves are left out; a token request is
    the endpoint and form parameters it would post. */
module AuthService {
  import opened Bytes
  import opened Text
  import opened Results
  import opened Session
  import opened Pkce
  import opened FormUrlEncoded

  // ---------------------------------------------------------------------------------------------
  // Configuration

  datatype AuthConfig = AuthConfig(clientId: string, clientSecret: string, callbackUrl: string)

  const DefaultCallbackUrl: string := "http://localhost:5000/api/auth/callback"

  /** An environment variable, with the empty string standing for an unset one. */
  function EnvVar(env: map<string, string>, name: string): (v: string)
    ensures name in env ==> v == env[name]
    ensures name !in env ==> v == []
  {
    if name in env then env[name] else []
  }

  /** `SF_CLIENT_ID`, `SF_CLIENT_SECRET`, and `SF_CALLBACK_URL` or the local default. */
  function ConfigFrom(env: map<string, string>): (c: AuthConfig)
    ensures c.clientId == EnvVar(env, "SF_CLIENT_ID") && c.clientSecret == EnvVar(env, "SF_CLIENT_SECRET")
    ensures c.callbackUrl == if EnvVar(env, "SF_CALLBACK_URL") != [] then EnvVar(env, "SF_CALLBACK_URL") else DefaultCallbackUrl
  {
    var callback := EnvVar(env, "SF_CALLBACK_URL");
    AuthConfig(EnvVar(env, "SF_CLIENT_ID"), EnvVar(env, "SF_CLIENT_SECRET"), if callback != [] then callback else DefaultCallbackUrl)
  }

  // ---------------------------------------------------------------------------------------------
  // Endpoints. The empty custom domain stands for a missing one.

  const ProductionDomain: string := "https://login.salesforce.com"
  const SandboxDomain: string := "https://test.salesforce.com"

  /** `getLoginDomain`. */
  function GetLoginDomain(orgType: string, customDomain: string): (d: string)
    ensures customDomain != [] ==> d == "https://" + customDomain
    ensures customDomain == [] && (orgType == "sandbox" || orgType == "test") ==> d == SandboxDomain
    ensures customDomain == [] && orgType != "sandbox" && orgType != "test" ==> d == ProductionDomain
  {
    if customDomain != [] then "https://" + customDomain
    else if orgType == "sandbox" || orgType == "test" then SandboxDomain
    else ProductionDomain
  }

  /** `getTokenEndpoint`, which spells its URLs out in full rather than calling `getLoginDomain`. */
  function GetTokenEndpoint(orgType: string, customDomain: string): string
  {
    if customDomain != [] then "https://" + customDomain + "/services/oauth2/token"
    else if orgType == "sandbox" || orgType == "test" then "https://test.salesforce.com/services/oauth2/token"
    else "https://login.salesforce.com/services/oauth2/token"
  }

  /** The two switches agree: the token endpoint is always the login domain's. */
  lemma TokenEndpointIsLoginDomain(orgType: string, customDomain: string)
    ensures GetTokenEndpoint(orgType, customDomain) == GetLoginDomain(orgType, customDomain) + "/services/oauth2/token"
  {
    if customDomain == [] {
      if orgType == "sandbox" || orgType == "test" {
        SandboxTokenEndpoint();
      } else {
        ProductionTokenEndpoint();
      }
    }
  }

  lemma SandboxTokenEndpoint()
    ensures SandboxDomain + "/services/oauth2/token" == "https://test.salesforce.com/services/oauth2/token"
  {
  }

  lemma ProductionTokenEndpoint()
    ensures ProductionDomain + "/services/oauth2/token" == "https://login.salesforce.com/services/oauth2/token"
  {
  }

  // ---------------------------------------------------------------------------------------------
  // The authorize URL

  datatype AuthError = ClientIdNotConfigured | CredentialsNotConfigured | CodeVerifierRequired

  datatype LoginRequest = LoginRequest(loginUrl: string, codeVerifier: string)

  const LoginScope: string := "full refresh_token offline_access"

  /** The authorize parameters, in order; `state` is added only when non-empty. */
  function LoginParams(config: AuthConfig, codeChallenge: string, state: string): (ps: seq<Param>)
    ensures |ps| == if state != [] then 7 else 6
  {
    [ Param("response_type", "code"),
      Param("client_id", config.clientId),
      Param("redirect_uri", config.callbackUrl),
      Param("scope", LoginScope),
      Param("code_challenge", codeChallenge),
      Param("code_challenge_method", "S256") ]
    + (if state != [] then [Param("state", state)] else [])
  }

  function AuthorizeEndpoint(orgType: string, customDomain: string): string
  {
    GetLoginDomain(orgType, customDomain) + "/services/oauth2/authorize"
  }

  /** `getLoginUrl`: a fresh verifier from 32 random bytes, its S256 challenge and the authorize
      URL carrying them. Without a client id it throws. */
  function GetLoginUrl(config: AuthConfig, orgType: string, customDomain: string, state: string,
                       random: Digest, sha256: seq<Byte> -> Digest): (r: Result<LoginRequest, AuthError>)
    ensures r.Failure? <==> config.clientId == []
    ensures r.Failure? ==> r.error == ClientIdNotConfigured
    ensures r.Success? ==>
      && r.value.codeVerifier == GenerateCodeVerifier(random)
      && r.value.loginUrl == AuthorizeEndpoint(orgType, customDomain) + "?"
           + Serialize(LoginParams(config, GenerateCodeChallenge(r.value.codeVerifier, sha256), state))
  {
    if config.clientId == [] then Failure(ClientIdNotConfigured)
    else
      var verifier := GenerateCodeVerifier(random);
      var challenge := GenerateCodeChallenge(verifier, sha256);
      Success(LoginRequest(AuthorizeEndpoint(orgType, customDomain) + "?" + Serialize(LoginParams(config, challenge, state)), verifier))
  }

  predicate HasParam(ps: seq<Param>, name: string)
  {
    exists i :: 0 <= i < |ps| && ps[i].name == name
  }

  /** The authorize parameters: `S256` as the challenge method always, and a `state`
      parameter exactly when a non-empty state was given. */
  lemma LoginParamsShape(config: AuthConfig, codeChallenge: string, state: string)
    ensures var ps := LoginParams(config, codeChallenge, state);
      && ps[0] == Param("response_type", "code")
      && ps[1] == Param("client_id", config.clientId)
      && ps[2] == Param("redirect_uri", config.callbackUrl)
      && ps[4] == Param("code_challenge", codeChallenge)
      && ps[5] == Param("code_challenge_method", "S256")
      && (HasParam(ps, "state") <==> state != [])
      && (state != [] ==> ps[6] == Param("state", state))
  {
    var ps := LoginParams(config, codeChallenge, state);
    if HasParam(ps, "state") {
      var i :| 0 <= i < |ps| && ps[i].name == "state";
      assert ps[3].name[1] != "state"[1];
      assert i != 0 && i != 1 && i != 2 && i != 4 && i != 5 by {
        assert |ps[0].name| != 5 && |ps[1].name| != 5 && |ps[2].name| != 5 && |ps[4].name| != 5 && |ps[5].name| != 5;
      }
    }
    if state != [] {
      assert ps[6].name == "state";
    }
  }

  /** The query string of the authorize URL parses back into exactly the authorize parameters,
      whose challenge decodes to the SHA-256 digest of the returned verifier. */
  lemma LoginUrlQuery(config: AuthConfig, orgType: string, customDomain: string, state: string,
                      random: Digest, sha256: seq<Byte> -> Digest)
    requires config.clientId != []
    ensures var r := GetLoginUrl(config, orgType, customDomain, state, random, sha256).value;
      var prefix := AuthorizeEndpoint(orgType, customDomain) + "?";
      var challenge := GenerateCodeChallenge(r.codeVerifier, sha256);
      && r.loginUrl[..|prefix|] == prefix
      && ParseQuery(r.loginUrl[|prefix|..]) == LoginParams(config, challenge, state)
      && DecodeBase64Url(challenge) == sha256(Utf8(r.codeVerifier))
  {
    var r := GetLoginUrl(config, orgType, customDomain, state, random, sha256).value;
    var ps := LoginParams(config, GenerateCodeChallenge(r.codeVerifier, sha256), state);
    var prefix := AuthorizeEndpoint(orgType, customDomain) + "?";
    assert r.loginUrl == prefix + Serialize(ps);
    assert r.loginUrl[|prefix|..] == Serialize(ps);
    QueryRoundTrip(ps);
  }

  // ---------------------------------------------------------------------------------------------
  // Token requests

  datatype TokenRequest = TokenRequest(endpoint: string, params: seq<Param>)

  /** `exchangeCodeForToken` up to the request it posts: the credentials are checked first, then
      the verifier, both before any request is made. */
  function ExchangeCodeForToken(config: AuthConfig, code: string, codeVerifier: string, orgType: string, customDomain: string)
      : (r: Result<TokenRequest, AuthError>)
    ensures (config.clientId == [] || config.clientSecret == []) ==> r == Failure(CredentialsNotConfigured)
    ensures config.clientId != [] && config.clientSecret != [] && codeVerifier == [] ==> r == Failure(CodeVerifierRequired)
    ensures r.Success? <==> config.clientId != [] && config.clientSecret != [] && codeVerifier != []
    ensures r.Success? ==> r.value.endpoint == GetLoginDomain(orgType, customDomain) + "/services/oauth2/token"
    ensures r.Success? ==> r.value.params == ExchangeParams(config, code, codeVerifier)
  {
    if config.clientId == [] || config.clientSecret == [] then Failure(CredentialsNotConfigured)
    else if codeVerifier == [] then Failure(CodeVerifierRequired)
    else
      TokenEndpointIsLoginDomain(orgType, customDomain);
      Success(TokenRequest(GetTokenEndpoint(orgType, customDomain), ExchangeParams(config, code, codeVerifier)))
  }

  /** The form parameters of the authorization-code grant, in order. */
  function ExchangeParams(config: AuthConfig, code: string, codeVerifier: string): (ps: seq<Param>)
    ensures |ps| == 6
  {
    [ Param("grant_type", "authorization_code"), Param("code", code), Param("client_id", config.clientId),
      Param("client_secret", config.clientSecret), Param("redirect_uri", config.callbackUrl), Param("code_verifier", codeVerifier) ]
  }

  /** `refreshAccessToken` up to the request it posts. */
  function RefreshAccessToken(config: AuthConfig, refreshToken: string, orgType: string, customDomain: string)
      : (r: Result<TokenRequest, AuthError>)
    ensures r.Failure? <==> config.clientId == [] || config.clientSecret == []
    ensures r.Failure? ==> r.error == CredentialsNotConfigured
    ensures r.Success? ==> r.value.endpoint == GetLoginDomain(orgType, customDomain) + "/services/oauth2/token"
    ensures r.Success? ==> r.value.params == RefreshParams(config, refreshToken)
  {
    if config.clientId == [] || config.clientSecret == [] then Failure(CredentialsNotConfigured)
    else
      TokenEndpointIsLoginDomain(orgType, customDomain);
      Success(TokenRequest(GetTokenEndpoint(orgType, customDomain), RefreshParams(config, refreshToken)))
  }

  /** The form parameters of the refresh-token grant, in order. */
  function RefreshParams(config: AuthConfig, refreshToken: string): (ps: seq<Param>)
    ensures |ps| == 4
  {
    [ Param("grant_type", "refresh_token"), Param("refresh_token", refreshToken),
      Param("client_id", config.clientId), Param("client_secret", config.clientSecret) ]
  }

  /** The posted form body parses back into the grant's parameters: it carries the code and
      the verifier the authorize step produced, unchanged. */
  lemma ExchangeBodyCarriesVerifier(config: AuthConfig, code: string, codeVerifier: string)
    ensures var ps := ParseQuery(Serialize(ExchangeParams(config, code, codeVerifier)));
      |ps| == 6 && ps[5] == Param("code_verifier", codeVerifier) && ps[1] == Param("code", code)
      && ps[0] == Param("grant_type", "authorization_code")
  {
    ParsedFields(ExchangeParams(config, code, codeVerifier), code, codeVerifier);
  }

  /** The round trip keeps the fields the exchange lemma reads. */
  lemma ParsedFields(ps: seq<Param>, code: string, codeVerifier: string)
    requires |ps| == 6 && ps[5] == Param("code_verifier", codeVerifier) && ps[1] == Param("code", code)
    requires ps[0] == Param("grant_type", "authorization_code")
    ensures var q := ParseQuery(Serialize(ps));
      |q| == 6 && q[5] == Param("code_verifier", codeVerifier) && q[1] == Param("code", code)
      && q[0] == Param("grant_type", "authorization_code")
  {
    QueryRoundTrip(ps);
  }

  // ---------------------------------------------------------------------------------------------
  // `parseInt`

  function DigitValue(c: char): (v: int)
    ensures 0 <= v < 36
  {
    if '0' <= c <= '9' then c as int - '0' as int
    else if 'a' <= c <= 'z' then c as int - 'a' as int + 10
    else if 'A' <= c <= 'Z' then c as int - 'A' as int + 10
    else 35
  }

  predicate IsDigitIn(c: char, radix: nat)
  {
    ('0' <= c <= '9' || 'a' <= c <= 'z' || 'A' <= c <= 'Z') && DigitValue(c) < radix
  }

  /** The longest prefix of digits in the radix. */
  function LeadingDigits(s: string, radix: nat): (ds: string)
    ensures |ds| <= |s| && ds == s[..|ds|]
    ensures forall i :: 0 <= i < |ds| ==> IsDigitIn(ds[i], radix)
    ensures |ds| < |s| ==> !IsDigitIn(s[|ds|], radix)
    decreases |s|
  {
    if s != [] && IsDigitIn(s[0], radix) then [s[0]] + LeadingDigits(s[1..], radix) else []
  }

  /** The value of a digit string, most significant digit first. */
  function DigitsValue(ds: string, radix: nat): (n: nat)
    decreases |ds|
  {
    if ds == [] then 0 else DigitsValue(ds[..|ds| - 1], radix) * radix + DigitValue(ds[|ds| - 1]) % 36
  }

  /** `parseInt(s)` with no radix: skip leading whitespace, an optional sign, then the
      magnitude; no digits is `NaN`, here `None`. */
  function ParseInt(s: string): Option<int>
  {
    var t := TrimStart(s);
    var sign := if t != [] && t[0] == '-' then -1 else 1;
    var u := if t != [] && (t[0] == '-' || t[0] == '+') then t[1..] else t;
    match ParseMagnitude(u)
    case None => None
    case Some(n) => Some(sign * n)
  }

  /** The unsigned part of `parseInt`: a `0x` prefix selects base 16, then as many digits as
      follow. */
  function ParseMagnitude(u: string): Option<int>
  {
    var hex := |u| >= 2 && u[0] == '0' && (u[1] == 'x' || u[1] == 'X');
    var radix := if hex then 16 else 10;
    var ds := LeadingDigits(if hex then u[2..] else u, radix);
    if ds == [] then None else Some(DigitsValue(ds, radix))
  }

  lemma {:induction false} DecimalDigitsValue(n: nat)
    ensures forall i :: 0 <= i < |Decimal(n)| ==> IsDigitIn(Decimal(n)[i], 10)
    ensures DigitsValue(Decimal(n), 10) == n
    decreases n
  {
    var s := Decimal(n);
    if n >= 10 {
      DecimalDigitsValue(n / 10);
      assert s[..|s| - 1] == Decimal(n / 10);
    }
  }

  lemma {:induction false} LeadingDigitsAll(s: string, radix: nat)
    requires forall i :: 0 <= i < |s| ==> IsDigitIn(s[i], radix)
    ensures LeadingDigits(s, radix) == s
    decreases |s|
  {
    if s != [] {
      LeadingDigitsAll(s[1..], radix);
    }
  }

  /** `parseInt` reads back what `String(n)` writes. */
  lemma ParseIntDecimal(n: nat)
    ensures ParseInt(Decimal(n)) == Some(n)
  {
    var s := Decimal(n);
    DecimalDigitsValue(n);
    LeadingDigitsAll(s, 10);
    ParseIntDigits(s);
  }

  /** A string of decimal digits parses to its value. */
  lemma ParseIntDigits(s: string)
    requires s != [] && forall i :: 0 <= i < |s| ==> IsDigitIn(s[i], 10)
    requires LeadingDigits(s, 10) == s
    ensures ParseInt(s) == Some(DigitsValue(s, 10))
  {
    DecimalDigitIsNumeral(s[0]);
    ParseIntUnsigned(s);
    if |s| >= 2 {
      DecimalDigitIsNumeral(s[1]);
    }
    ParseMagnitudeDecimal(s);
  }

  /** A string starting with a digit has no whitespace or sign to skip. */
  lemma ParseIntUnsigned(s: string)
    requires s != [] && '0' <= s[0] <= '9'
    ensures ParseInt(s) == ParseMagnitude(s)
  {
    assert !IsSpace(s[0]);
    assert TrimStart(s) == s;
  }

  /** Without a `0x` prefix the magnitude is read in base 10. */
  lemma ParseMagnitudeDecimal(u: string)
    requires !(|u| >= 2 && u[0] == '0' && (u[1] == 'x' || u[1] == 'X'))
    ensures ParseMagnitude(u) == if LeadingDigits(u, 10) == [] then None else Some(DigitsValue(LeadingDigits(u, 10), 10))
  {
  }

  /** A digit of base 10 is one of `0`-`9`. */
  lemma DecimalDigitIsNumeral(c: char)
    requires IsDigitIn(c, 10)
    ensures '0' <= c <= '9'
  {
  }

  // ---------------------------------------------------------------------------------------------
  // Authentication status

  /** Two hours, in milliseconds. */
  const TokenLifetime: int := 2 * 60 * 60 * 1000

  /** `parseInt(issuedAt)` of a stored value; an integer number parses to itself. */
  function ParseIssuedAt(v: Value): Option<int>
  {
    match v
    case Num(n) => Some(n)
    case Str(s) => ParseInt(s)
    case _ => None
  }

  /** `issuedAt ? parseInt(issuedAt) + expiresIn : null`, read back through the `expiresAt ?`
      tests: `NaN` and 0 are falsy, so both become `None`. */
  function ExpiresAt(entries: map<string, Value>): (e: Option<int>)
    ensures !Truthy(Lookup(entries, "tokenIssuedAt")) ==> e.None?
    ensures e.Some? ==> e.value != 0 && ParseIssuedAt(entries["tokenIssuedAt"]) == Some(e.value - TokenLifetime)
  {
    var issued := Lookup(entries, "tokenIssuedAt");
    if !Truthy(issued) then None
    else match ParseIssuedAt(issued.value)
      case None => None
      case Some(t) => if t + TokenLifetime != 0 then Some(t + TokenLifetime) else None
  }

  datatype AuthStatus =
    | NotAuthenticated
    | Authenticated(isExpired: bool, instanceUrl: Option<Value>, hasRefreshToken: bool, userId: Option<Value>, expiresAt: Option<int>)

  /** `getAuthStatus`; `expiresAt` is in milliseconds (the ISO rendering is left out). */
  function GetAuthStatus(entries: map<string, Value>, now: int): (s: AuthStatus)
    ensures s.NotAuthenticated? <==> !Truthy(Lookup(entries, "accessToken"))
    ensures s.Authenticated? ==> s.expiresAt == ExpiresAt(entries)
    ensures s.Authenticated? ==> (s.isExpired <==> s.expiresAt.Some? && now > s.expiresAt.value)
    ensures s.Authenticated? ==> (s.hasRefreshToken <==> Truthy(Lookup(entries, "refreshToken")))
    ensures s.Authenticated? ==> s.instanceUrl == Lookup(entries, "instanceUrl") && s.userId == Lookup(entries, "userId")
  {
    if !Truthy(Lookup(entries, "accessToken")) then NotAuthenticated
    else
      var expiresAt := ExpiresAt(entries);
      Authenticated(expiresAt.Some? && now > expiresAt.value, Lookup(entries, "instanceUrl"),
                    Truthy(Lookup(entries, "refreshToken")), Lookup(entries, "userId"), expiresAt)
  }

  /** With the issue time stored as Salesforce sends it, a decimal string of milliseconds, the
      token expires two hours later, and is expired strictly after that instant. */
  lemma ExpiryOfIssuedAt(entries: map<string, Value>, issuedAt: nat, now: int)
    requires Truthy(Lookup(entries, "accessToken")) && Lookup(entries, "tokenIssuedAt") == Some(Str(Decimal(issuedAt)))
    ensures GetAuthStatus(entries, now).expiresAt == Some(issuedAt + 7200000)
    ensures GetAuthStatus(entries, now).isExpired <==> now > issuedAt + 7200000
  {
    ParseIntDecimal(issuedAt);
  }

  /** Without an issue time the token never counts as expired. */
  lemma NoIssuedAtNeverExpires(entries: map<string, Value>, now: int)
    requires Truthy(Lookup(entries, "accessToken")) && "tokenIssuedAt" !in entries
    ensures !GetAuthStatus(entries, now).isExpired && GetAuthStatus(entries, now).expiresAt.None?
  {
  }

  /** An issue time that is not a number gives `NaN`, so no expiry either. */
  lemma GarbageIssuedAtNeverExpires(entries: map<string, Value>, now: int)
    requires Truthy(Lookup(entries, "accessToken")) && Lookup(entries, "tokenIssuedAt") == Some(Str("soon"))
    ensures !GetAuthStatus(entries, now).isExpired && GetAuthStatus(entries, now).expiresAt.None?
  {
    assert TrimStart("soon") == "soon";
    assert !IsDigitIn('s', 10);
  }

  // ---------------------------------------------------------------------------------------------
  // Logout

  /** The keys `logout` deletes one by one. */
  const LogoutKeys: seq<string> := ["accessToken", "instanceUrl", "refreshToken", "tokenIssuedAt", "userId",
                                    "oauthState", "codeVerifier", "orgType", "selectedObject", "capturedRecords"]

  /** The key test of the cache sweep, as written: its second disjunct implies the first. */
  predicate IsCacheKey(key: string)
  {
    StartsWith(key, "objects_") || (StartsWith(key, "objects_") && EndsWith(key, "_timestamp"))
  }

  /** The session after `logout`: the listed keys and every `objects_` key gone, the rest as it was. */
  function LoggedOut(entries: map<string, Value>): (e: map<string, Value>)
    ensures forall k :: k in e <==> k in entries && k !in LogoutKeys && !StartsWith(k, "objects_")
    ensures forall k :: k in e ==> e[k] == entries[k]
  {
    map k | k in entries && k !in LogoutKeys && !StartsWith(k, "objects_") :: entries[k]
  }

  /** `logout`: delete the listed keys, then sweep a snapshot of the remaining keys and delete the
      cache keys among them. */
  method Logout(session: Session)
    modifies session
    ensures session.entries == LoggedOut(old(session.entries))
  {
    ghost var start := session.entries;
    DeleteKeys(session, LogoutKeys);
    ClearObjectCaches(session);
    assert session.entries.Keys == LoggedOut(start).Keys;
  }

  /** The `delete session.x` statements, one key after another. */
  method DeleteKeys(session: Session, keys: seq<string>)
    modifies session
    ensures forall k :: k in session.entries <==> k in old(session.entries) && k !in keys
    ensures forall k :: k in session.entries ==> session.entries[k] == old(session.entries)[k]
  {
    for i := 0 to |keys|
      invariant forall k :: k in session.entries <==> k in old(session.entries) && k !in keys[..i]
      invariant forall k :: k in session.entries ==> session.entries[k] == old(session.entries)[k]
    {
      assert keys[..i + 1] == keys[..i] + [keys[i]];
      session.Delete(keys[i]);
    }
    assert keys[..|keys|] == keys;
  }

  /** The `Object.keys(session).forEach` sweep over a snapshot of the keys. */
  method ClearObjectCaches(session: Session)
    modifies session
    ensures forall k :: k in session.entries <==> k in old(session.entries) && !IsCacheKey(k)
    ensures forall k :: k in session.entries ==> session.entries[k] == old(session.entries)[k]
  {
    var keys := session.entries.Keys;
    var remaining := keys;
    while remaining != {}
      invariant remaining <= keys
      invariant forall k :: k in session.entries <==> k in old(session.entries) && (k in remaining || !IsCacheKey(k))
      invariant forall k :: k in session.entries ==> session.entries[k] == old(session.entries)[k]
      decreases |remaining|
    {
      var key :| key in remaining;
      if IsCacheKey(key) {
        session.Delete(key);
      }
      remaining := remaining - {key};
    }
  }

  /** Logging out twice is logging out once. */
  lemma LogoutIdempotent(entries: map<string, Value>)
    ensures LoggedOut(LoggedOut(entries)) == LoggedOut(entries)
  {
  }

  /** After logout the session is not authenticated. */
  lemma LogoutUnauthenticates(entries: map<string, Value>, now: int)
    ensures GetAuthStatus(LoggedOut(entries), now) == NotAuthenticated
  {
    assert "accessToken" in LogoutKeys;
  }

  /** `getLogoutUrl`. */
  function GetLogoutUrl(instanceUrl: string): (u: Option<string>)
    ensures u.None? <==> instanceUrl == []
    ensures u.Some? ==> StartsWith(u.value, instanceUrl) && EndsWith(u.value, "/secur/logout.jsp")
    ensures u.Some? ==> |u.value| == |instanceUrl| + 17
  {
    if instanceUrl == [] then None else Some(instanceUrl + "/secur/logout.jsp")
  }
}
