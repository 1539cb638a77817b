/**
 * API/Service/JWTService.cs: the claims, lifetime, issuer, audience and key
 * of the tokens the API issues. The handler's JSON writing and HMAC-SHA256
 * are abstract; the JWS compact serialisation (section 7.1 of RFC 7515) they
 * feed is written out, so that the client's decoder can be run against it.
 */
module JwtService {
  import opened Wrappers
  import Utf8
  import Base64
  import SecureStorage
  import DomainModels

  const Int32Min: int := -0x8000_0000
  const Int32Max: int := 0x7FFF_FFFF

  type Int32 = x: int | Int32Min <= x <= Int32Max

  /** C#'s unchecked `int` addition: the sum wrapped into the 32-bit range. */
  function AddInt32(a: Int32, b: Int32): (r: Int32)
    ensures Int32Min <= a + b <= Int32Max ==> r == a + b
    ensures a + b > Int32Max ==> r == a + b - 0x1_0000_0000
  {
    (a as int + b as int - Int32Min) % 0x1_0000_0000 + Int32Min
  }

  /** A `DateTime` as its tick count: 100 ns units from 0001-01-01, up to the last tick of 9999. */
  const MaxTicks: int := 3_155_378_975_999_999_999
  const TicksPerMinute: int := 600_000_000

  type Ticks = t: int | 0 <= t <= MaxTicks

  /** `DateTime.AddMinutes` for a whole number of minutes; None where it throws because the result is out of range. */
  function AddMinutes(t: Ticks, minutes: int): (r: Option<Ticks>)
    ensures r.Some? <==> 0 <= t + minutes * TicksPerMinute <= MaxTicks
    ensures r.Some? ==> r.value == t + minutes * TicksPerMinute
  {
    var u := t + minutes * TicksPerMinute;
    if 0 <= u <= MaxTicks then Some(u) else None
  }

  /** `JWTSettings`, bound from configuration (absent values are null). */
  datatype JwtSettings = JwtSettings(
    secret: Option<string>,
    expiryMinutes: Int32,
    issuer: Option<string>,
    audience: Option<string>)

  /** `ClaimTypes.NameIdentifier`, `ClaimTypes.Name` and `ClaimTypes.Email`. */
  const NameIdentifier: string := "http://schemas.xmlsoap.org/ws/2005/05/identity/claims/nameidentifier"
  const Name: string := "http://schemas.xmlsoap.org/ws/2005/05/identity/claims/name"
  const Email: string := "http://schemas.xmlsoap.org/ws/2005/05/identity/claims/emailaddress"

  /** `SecurityAlgorithms.HmacSha256Signature`: HMAC with SHA-256, "HS256" in section 3.2 of RFC 7518. */
  const HmacSha256Signature: string := "http://www.w3.org/2001/04/xmldsig-more#hmac-sha256"

  datatype Claim = Claim(claimType: string, value: string)

  /** The `SecurityTokenDescriptor` the service fills in. */
  datatype TokenDescriptor = TokenDescriptor(
    subject: seq<Claim>,
    expires: Ticks,
    issuer: Option<string>,
    audience: Option<string>,
    key: seq<Byte>,
    algorithm: string)

  /** `Encoding.ASCII.GetBytes`: each char below 128 is its own code, every other char becomes '?' (63). */
  function AsciiBytes(s: string): (bs: seq<Byte>)
    ensures |bs| == |s|
    ensures forall i :: 0 <= i < |s| ==> bs[i] == if (s[i] as int) < 128 then s[i] as int else 63
  {
    if s == [] then [] else [if (s[0] as int) < 128 then s[0] as int else 63] + AsciiBytes(s[1..])
  }

  /** The value of the first claim of a given type, if any. */
  function ClaimValue(claims: seq<Claim>, claimType: string): Option<string> {
    if claims == [] then None
    else if claims[0].claimType == claimType then Some(claims[0].value)
    else ClaimValue(claims[1..], claimType)
  }

  /**
   * The descriptor `GenerateToken` builds for `user` at time `now`; None where
   * building it throws: a null secret (`Encoding.ASCII.GetBytes(null)`), or an
   * expiry outside the range of `DateTime`. The lifetime is
   * `ExpiryMinutes + 120`, added as 32-bit `int`s.
   */
  function Describe(user: DomainModels.User, settings: JwtSettings, now: Ticks): Option<TokenDescriptor> {
    if settings.secret.None? then None
    else
      var key := AsciiBytes(settings.secret.value);
      match AddMinutes(now, AddInt32(settings.expiryMinutes, 120))
      case None => None
      case Some(expires) =>
        Some(TokenDescriptor(
          [Claim(NameIdentifier, user.id.GetOr("")),
           Claim(Name, user.name.GetOr("")),
           Claim(Email, user.email.GetOr(""))],
          expires, settings.issuer, settings.audience, key, HmacSha256Signature))
  }

  /** The library: the JSON of the JOSE header for an algorithm name, the JSON of the claims, and HMAC-SHA256. */
  datatype Jose = Jose(
    headerJson: string -> string,
    payloadJson: TokenDescriptor -> string,
    hmacSha256: (seq<Byte>, seq<Byte>) -> seq<Byte>)

  /** The "alg" header value the handler writes for a signing algorithm. */
  function JwsAlgorithm(algorithm: string): string {
    if algorithm == HmacSha256Signature then "HS256" else algorithm
  }

  /**
   * `WriteToken(CreateToken(d))`: header, payload and signature, each
   * base64url without padding, joined by '.'; the signature is the MAC of the
   * ASCII of the first two parts under the descriptor's key.
   */
  function WriteToken(d: TokenDescriptor, jose: Jose): string {
    var header := Base64.UrlEncode(Utf8.Encode(jose.headerJson(JwsAlgorithm(d.algorithm))));
    var payload := Base64.UrlEncode(Utf8.Encode(jose.payloadJson(d)));
    var signature := Base64.UrlEncode(jose.hmacSha256(d.key, AsciiBytes(header + "." + payload)));
    header + "." + payload + "." + signature
  }

  /**
   * `GenerateToken(user)`: a function of the user, the settings and the clock
   * reading only. None also where `CreateToken` throws because the expiry is
   * not after the token's not-before time, which the handler sets to the
   * current time.
   */
  function GenerateToken(user: DomainModels.User, settings: JwtSettings, now: Ticks, jose: Jose): Option<string> {
    match Describe(user, settings, now)
    case None => None
    case Some(d) => if d.expires <= now then None else Some(WriteToken(d, jose))
  }

  // ---------------------------------------------------------------------------
  // What the issued token says

  /**
   * The subject holds exactly the three identity claims, no role claim, with
   * the user's id, name and email (each "" when null); issuer and audience
   * are the configured ones, the key is the ASCII of the secret, and the
   * algorithm is HMAC-SHA256.
   */
  lemma DescriptorContents(user: DomainModels.User, settings: JwtSettings, now: Ticks)
    requires Describe(user, settings, now).Some?
    ensures var d := Describe(user, settings, now).value;
      |d.subject| == 3 &&
      (forall c :: c in d.subject ==> c.claimType in {NameIdentifier, Name, Email}) &&
      ClaimValue(d.subject, NameIdentifier) == Some(if user.id.Some? then user.id.value else "") &&
      ClaimValue(d.subject, Name) == Some(if user.name.Some? then user.name.value else "") &&
      ClaimValue(d.subject, Email) == Some(if user.email.Some? then user.email.value else "") &&
      d.issuer == settings.issuer && d.audience == settings.audience &&
      d.key == AsciiBytes(settings.secret.value) && JwsAlgorithm(d.algorithm) == "HS256"
  {
    var d := Describe(user, settings, now).value;
    assert d.subject[1..][1..] == [d.subject[2]];
    assert ClaimValue(d.subject[1..][1..], Email) == Some(d.subject[2].value);
  }

  /** A descriptor is built exactly when a secret is configured and the expiry is a valid `DateTime`. */
  lemma DescribeDefined(user: DomainModels.User, settings: JwtSettings, now: Ticks)
    ensures Describe(user, settings, now).Some? <==>
      settings.secret.Some? && 0 <= now + AddInt32(settings.expiryMinutes, 120) * TicksPerMinute <= MaxTicks
  {
  }

  /**
   * Unless `ExpiryMinutes + 120` overflows, the token expires 120 minutes
   * after the configured lifetime has passed.
   */
  lemma ExpiryMargin(user: DomainModels.User, settings: JwtSettings, now: Ticks)
    requires settings.expiryMinutes <= Int32Max - 120
    requires Describe(user, settings, now).Some?
    ensures Describe(user, settings, now).value.expires == now + (settings.expiryMinutes + 120) * TicksPerMinute
  {
  }

  /**
   * When it does overflow, the lifetime becomes negative: the expiry lies
   * before the current time, so the handler refuses the token.
   */
  lemma ExpiryOverflow(user: DomainModels.User, settings: JwtSettings, now: Ticks, jose: Jose)
    requires settings.expiryMinutes > Int32Max - 120
    ensures Describe(user, settings, now).Some? ==> Describe(user, settings, now).value.expires < now
    ensures GenerateToken(user, settings, now, jose) == None
  {
  }

  /**
   * A token is issued exactly when a secret is configured, `ExpiryMinutes + 120`
   * is a positive `int` without overflow, and the expiry is a valid `DateTime`.
   */
  lemma TokenIssued(user: DomainModels.User, settings: JwtSettings, now: Ticks, jose: Jose)
    ensures GenerateToken(user, settings, now, jose).Some? <==>
      settings.secret.Some? && -120 < settings.expiryMinutes <= Int32Max - 120 &&
      now + (settings.expiryMinutes + 120) * TicksPerMinute <= MaxTicks
  {
    var minutes := AddInt32(settings.expiryMinutes, 120);
    if settings.expiryMinutes > Int32Max - 120 {
      assert minutes < 0;
    } else {
      assert minutes == settings.expiryMinutes + 120;
    }
  }

  /** An issued token is a compact serialisation: three dot-free segments. */
  lemma {:induction false} TokenSegments(d: TokenDescriptor, jose: Jose)
    ensures var parts := SecureStorage.Split(WriteToken(d, jose), '.');
      |parts| == 3 &&
      parts[1] == Base64.UrlEncode(Utf8.Encode(jose.payloadJson(d)))
  {
    var header := Base64.UrlEncode(Utf8.Encode(jose.headerJson(JwsAlgorithm(d.algorithm))));
    var payload := Base64.UrlEncode(Utf8.Encode(jose.payloadJson(d)));
    var signature := Base64.UrlEncode(jose.hmacSha256(d.key, AsciiBytes(header + "." + payload)));
    Base64.UrlEncodeHasNoDot(Utf8.Encode(jose.headerJson(JwsAlgorithm(d.algorithm))));
    Base64.UrlEncodeHasNoDot(Utf8.Encode(jose.payloadJson(d)));
    Base64.UrlEncodeHasNoDot(jose.hmacSha256(d.key, AsciiBytes(header + "." + payload)));
    assert header + "." + payload + "." + signature == header + "." + (payload + "." + signature);
    SecureStorage.SplitAtFirstDot(header, payload + "." + signature);
    SecureStorage.SplitAtFirstDot(payload, signature);
    SecureStorage.SplitDotFree(signature);
  }

  /**
   * The client's `decodeJWT` reads back exactly the claims JSON the API wrote
   * into a token it issued, whatever the header and the signature.
   */
  lemma ClientDecodesIssuedToken<P>(user: DomainModels.User, settings: JwtSettings, now: Ticks, jose: Jose, parse: string -> Option<P>)
    requires GenerateToken(user, settings, now, jose).Some?
    ensures var d := Describe(user, settings, now).value;
      SecureStorage.DecodeJwt(GenerateToken(user, settings, now, jose).value, parse) == parse(jose.payloadJson(d))
  {
    var d := Describe(user, settings, now).value;
    var header := Base64.UrlEncode(Utf8.Encode(jose.headerJson(JwsAlgorithm(d.algorithm))));
    var payload := Base64.UrlEncode(Utf8.Encode(jose.payloadJson(d)));
    var signature := Base64.UrlEncode(jose.hmacSha256(d.key, AsciiBytes(header + "." + payload)));
    Base64.UrlEncodeHasNoDot(Utf8.Encode(jose.headerJson(JwsAlgorithm(d.algorithm))));
    SecureStorage.DecodeJwtOfEncodedPayload(header, jose.payloadJson(d), signature, parse);
  }
}
