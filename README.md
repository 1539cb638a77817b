# Hotel-booking demo: session, tokens, accounts, endpoints, prices and audit stamps

This project models the parts of the hotel-booking demo (a Blazor client and an
ASP.NET Core API) that hold sequential logic of their own, and proves
properties of that model.

- **Client session** (`Session`, `SecureStorage`). `AuthState` is a class whose
  fields `isLoggedIn`, `userName`, `roles`, `jwtToken` and `jwtPayload` its
  methods update in place. It persists itself through the `secureStorage.js`
  module into the browser's `localStorage`, a mutable `map<string, string>` in
  the shared `BrowserStorage` object. A null runtime stands for prerendering,
  and `OnChange` is a notification counter. Each method is proved against a
  function on values (`LoggedIn`, `JwtLoggedIn`, `LoggedOut`, `Loaded`,
  `StoreAfterSave`, ...). The round trips (log in, reload; log out, reload) are
  lemmas about those functions.
- **decodeJWT** (`SecureStorage.DecodeJwt` with `Base64`, `UriDecoding`,
  `Utf8`). It is written out step by step:
  - `split('.')` and the base64url-to-base64 alphabet mapping;
  - the forgiving base64 decoding of `atob`;
  - the `'%' + ('00' + hex).slice(-2)` escaping;
  - `decodeURIComponent` with its strict UTF-8 decoding.

  The decoder is proved equal to "base64-decode the second segment, then UTF-8
  decode, then parse". It is also proved to read back the payload of any
  compact JWS.
- **Bearer header** (`ApiService.CreateAuthenticatedRequest`). This is what the
  client sends, given the session fields.
- **Token issuing** (`JwtService`). This covers the claim set, the expiry with
  C#'s wrapping `int` addition and `DateTime` range errors, the issuer and
  audience, and the key as ASCII bytes. The compact serialisation is written
  out, so the client decoder can be run against it.
- **Accounts** (`UserController`). `Register` mutates the `Users` table, a
  sequence field of the controller class. `Login` is a function of the table.
  The validation attributes `[Required]`, `[MinLength(6)]` and `[EmailAddress]`
  decide `ModelState.IsValid`.
- **Endpoint selection** (`ApiEndpointResolver`). The candidate list is built by
  appends and walked by a loop with an early return. That loop is proved against
  a first-healthy-then-first-set specification.
- **Booking price** (`Bookings`). Dates are `DateTime` tick counts. `TimeSpan.Days`
  is the difference divided by the ticks of a day, truncated toward zero.
  `decimal` is modelled as exact `real`.
- **Audit stamping** (`AuditStamping`, `AppDb`, `Db`). Tracked entities are
  objects stamped in place by one loop, shared by the stamping overrides of both
  contexts. `DateTime.UtcNow` and `Guid.NewGuid()` are oracle objects that count
  their calls. The loop is proved against the value-level specification
  `Stamped`, and the listed stamping rules are lemmas about `Stamped`.

Foreign libraries are function-valued fields, with only the facts the code relies
on stated as ghost predicates:

- CryptoJS AES: `SecureStorage.Sound`. A ciphertext is non-empty, and decryption
  inverts encryption.
- System.Text.Json for the session record: `Session.Sound`.
- BCrypt: `UserController.Sound`.
- The token handler's JSON writer and HMAC-SHA256: `JwtService.Jose`.

The model departs from the written specification in two places, and follows the
code in both:

- `LoadAsync` reads through the runtime passed to it, not the one the session
  was built with (Blazor/Services/AuthState.cs:132-134).
- Booking dates are whole ticks rather than whole days, so partial days are
  dropped exactly as `TimeSpan.Days` drops them.

## Model

| member | source | states |
|---|---|---|
| SecureStorage.SetItem | Blazor/wwwroot/js/secureStorage.js:24-26 | the key then holds the value; every other key holds what it held |
| SecureStorage.GetItem | Blazor/wwwroot/js/secureStorage.js:28-30 | a value exactly when the key is present, and then the stored one |
| SecureStorage.RemoveItem | Blazor/wwwroot/js/secureStorage.js:32-34 | the key is gone; every other key holds what it held |
| SecureStorage.SetEncryptedItem | Blazor/wwwroot/js/secureStorage.js:10-14 | the key holds the AES ciphertext of the value under the fixed passphrase; no other key changes |
| SecureStorage.GetDecryptedItem | Blazor/wwwroot/js/secureStorage.js:16-22 | null exactly when the entry is missing or empty |
| SecureStorage.SetJwtToken | Blazor/wwwroot/js/secureStorage.js:37-41 | writes the 'jwt_token' entry and no other |
| SecureStorage.GetJwtToken | Blazor/wwwroot/js/secureStorage.js:43-49 | null exactly when the 'jwt_token' entry is missing or empty |
| SecureStorage.RemoveJwtToken | Blazor/wwwroot/js/secureStorage.js:51-53 | the 'jwt_token' entry is gone; no other key changes |
| SecureStorage.DecryptedAfterEncrypted | Blazor/wwwroot/js/secureStorage.js:1-22 | what getDecryptedItem reads under a key is the value setEncryptedItem last stored there, both using the same fixed key |
| SecureStorage.DecryptedElsewhereUnchanged | Blazor/wwwroot/js/secureStorage.js:13 | writing or removing one key does not change what is decrypted under another |
| SecureStorage.JwtTokenRoundTrip | Blazor/wwwroot/js/secureStorage.js:37-53 | getJWTToken returns the token setJWTToken stored, and null after removeJWTToken |
| SecureStorage.BrowserStorage.constructor | Blazor/wwwroot/js/secureStorage.js:24-34 | a storage holding the given entries and AES instance |
| SecureStorage.Split | Blazor/wwwroot/js/secureStorage.js:57 | `split` always yields at least one part |
| SecureStorage.SplitAtFirstDot | Blazor/wwwroot/js/secureStorage.js:57 | a dot-free first segment followed by '.' is the first part, and the rest splits on its own |
| SecureStorage.SplitDotFree | Blazor/wwwroot/js/secureStorage.js:57 | a string without '.' splits into itself alone |
| SecureStorage.ReplaceAll | Blazor/wwwroot/js/secureStorage.js:58 | every occurrence of the char is replaced and nothing else changes |
| SecureStorage.UrlToStandard | Blazor/wwwroot/js/secureStorage.js:58 | '-' becomes '+', '_' becomes '/', every other char is kept, the length is kept |
| SecureStorage.UrlSpellingToStandard | Blazor/wwwroot/js/secureStorage.js:58 | the alphabet mapping turns the base64url spelling of any octets into their standard base64 spelling |
| SecureStorage.DecodeJwtWithoutDot | Blazor/wwwroot/js/secureStorage.js:56-65 | a token without '.' decodes to null rather than throwing |
| SecureStorage.DecodeJwtReadsOnlyPayload | Blazor/wwwroot/js/secureStorage.js:57 | only the segment after the first '.' matters: header, signature and segment count are ignored |
| SecureStorage.DecodeJwtCharacterised | Blazor/wwwroot/js/secureStorage.js:55-66 | decodeJWT equals: base64-decode the second segment, UTF-8 decode, parse; null exactly when a step fails |
| SecureStorage.DecodeJwtOfEncodedPayload | Blazor/wwwroot/js/secureStorage.js:55-66 | a payload written as base64url of its UTF-8 is read back as exactly that JSON text |
| SecureStorage.DecodeJwt | Blazor/wwwroot/js/secureStorage.js:55-66 | decodeJWT; stated by DecodeJwtCharacterised against base64, UTF-8 and parse, and by DecodeJwtOfEncodedPayload as a round trip |
| Base64.Sextets | Blazor/wwwroot/js/secureStorage.js:59 | an octet string of length n has ⌈4n/3⌉ 6-bit groups, unpadded |
| Base64.SextetsLength | Blazor/wwwroot/js/secureStorage.js:59 | an unpadded spelling never has length 4k+1, the length `atob` rejects |
| Base64.PaddedLength | Blazor/wwwroot/js/secureStorage.js:59 | the padded spelling of any octet string has a length that is a multiple of four |
| Base64.Spell | Blazor/wwwroot/js/secureStorage.js:59 | each group spelled by its digit in the alphabet |
| Base64.StripAsciiWhitespace | Blazor/wwwroot/js/secureStorage.js:59 | `atob` ignores ASCII white space: none remains |
| Base64.Values | Blazor/wwwroot/js/secureStorage.js:59 | one value per digit when every char is a digit |
| Base64.BinaryString | Blazor/wwwroot/js/secureStorage.js:59 | `atob`'s result has one char per octet, whose code is that octet |
| Base64.Atob | Blazor/wwwroot/js/secureStorage.js:59 | every char of `atob`'s result is below 256 |
| Base64.FromSextetsSextets | Blazor/wwwroot/js/secureStorage.js:59 | regrouping the 6-bit groups of octets gives the octets back |
| Base64.ValuesOfSpelling | Blazor/wwwroot/js/secureStorage.js:59 | reading a standard spelling gives the groups spelled |
| Base64.StripAsciiWhitespaceNone | Blazor/wwwroot/js/secureStorage.js:59 | a string without white space is left as it is |
| Base64.CharValueOfDigit | Blazor/wwwroot/js/secureStorage.js:59 | the digit of a value reads back as that value |
| Base64.SpellingValues | Blazor/wwwroot/js/secureStorage.js:59 | every char of a standard spelling reads back as the value spelled |
| Base64.PlainDataUnchanged | Blazor/wwwroot/js/secureStorage.js:59 | digits without padding or white space reach the decoding step unchanged |
| Base64.DecodeUnpadded | Blazor/wwwroot/js/secureStorage.js:59 | `atob` decodes the unpadded standard spelling of any octets back to them |
| Base64.StripPaddedSpelling | Blazor/wwwroot/js/secureStorage.js:59 | a correctly padded spelling loses exactly its padding |
| Base64.DecodeEncoded | Blazor/wwwroot/js/secureStorage.js:59 | `atob` decodes the padded base64 of any octets back to them |
| Base64.ForgivingDecode | Blazor/wwwroot/js/secureStorage.js:59 | `atob`; stated by DecodeEncoded and DecodeUnpadded, which decode every padded and unpadded spelling back |
| Base64.UrlEncodeHasNoDot | Blazor/wwwroot/js/secureStorage.js:57 | a base64url segment never contains '.', so splitting cannot cut it |
| UriDecoding.ToHexString | Blazor/wwwroot/js/secureStorage.js:60 | `toString(16)` is never empty |
| UriDecoding.PercentEscapeOfOctet | Blazor/wwwroot/js/secureStorage.js:60 | for each char below 256 the hex step yields '%' and exactly two hex digits, high nibble first |
| UriDecoding.HexValueOfDigit | Blazor/wwwroot/js/secureStorage.js:60 | each hex digit written reads back as its value |
| UriDecoding.ParseHexOctet | Blazor/wwwroot/js/secureStorage.js:59-61 | two chars parse as an octet exactly when both are hex digits |
| UriDecoding.ParseEscapedOctet | Blazor/wwwroot/js/secureStorage.js:59-61 | the two digits of an escape parse back to the octet |
| UriDecoding.Continuations | Blazor/wwwroot/js/secureStorage.js:59-61 | a run of escapes gives one octet per three chars |
| UriDecoding.PercentJoinAppend | Blazor/wwwroot/js/secureStorage.js:59-61 | the map-and-join distributes over concatenation |
| UriDecoding.BinaryStringAppend | Blazor/wwwroot/js/secureStorage.js:59 | the binary string of a concatenation is the concatenation of binary strings |
| UriDecoding.EscapedOne | Blazor/wwwroot/js/secureStorage.js:59-61 | one octet escapes to '%' and its two hex digits |
| UriDecoding.EscapedAppend | Blazor/wwwroot/js/secureStorage.js:59-61 | escaping distributes over concatenation, three chars per octet |
| UriDecoding.ContinuationsOfEscaped | Blazor/wwwroot/js/secureStorage.js:59-61 | the escapes of any octets read back as those octets |
| UriDecoding.DecodeEscaped | Blazor/wwwroot/js/secureStorage.js:59-61 | `decodeURIComponent` of the escaped octets is their UTF-8 decoding: text when valid, an error exactly when not |
| UriDecoding.DecodeUriComponent | Blazor/wwwroot/js/secureStorage.js:59-61 | `decodeURIComponent`; stated by DecodeEscaped, which equates it on escaped octets with UTF-8 decoding |
| Utf8.EncodeChar | Blazor/wwwroot/js/secureStorage.js:59-61 | a scalar value takes one to four octets |
| Utf8.SequenceLength | Blazor/wwwroot/js/secureStorage.js:59-61 | a lead octet announces 1 to 4 octets; ASCII is 1; continuation and invalid octets 0 |
| Utf8.EncodeTwo | Blazor/wwwroot/js/secureStorage.js:59-61 | a two-octet sequence decodes to the code point it encodes |
| Utf8.EncodeThree | Blazor/wwwroot/js/secureStorage.js:59-61 | a three-octet sequence decodes to the code point it encodes |
| Utf8.EncodeFour | Blazor/wwwroot/js/secureStorage.js:59-61 | a four-octet sequence decodes to the code point it encodes |
| Utf8.EncodeCharDecodes | Blazor/wwwroot/js/secureStorage.js:59-61 | the octets of a char are one valid sequence decoding to that char |
| Utf8.CodePointCanonical | Blazor/wwwroot/js/secureStorage.js:59-61 | an accepted multi-octet sequence is the shortest encoding of its code point |
| Utf8.DecodeSequenceCanonical | Blazor/wwwroot/js/secureStorage.js:59-61 | an accepted sequence is the encoding of the char it decodes to |
| Utf8.DecodeEncode | Blazor/wwwroot/js/secureStorage.js:59-61 | decoding the UTF-8 of any string gives the string back |
| Utf8.EncodeDecode | Blazor/wwwroot/js/secureStorage.js:59-61 | every accepted octet string is the UTF-8 of the text decoded from it |
| Utf8.Decode | Blazor/wwwroot/js/secureStorage.js:59-61 | strict UTF-8 decoding; stated by DecodeEncode and EncodeDecode, the two round trips with the encoder |
| Session.LoggedIn | Blazor/Services/AuthState.cs:58-62 | logged in as the given name; roles are a copy of the given ones, or empty when null; token and payload kept |
| Session.JwtLoggedIn | Blazor/Services/AuthState.cs:82-86 | logged in with exactly the token, even for a null payload; the name is Name, else Email, else "Ukendt bruger"; no roles |
| Session.LoggedOut | Blazor/Services/AuthState.cs:102-106 | every field back to its value in a new instance |
| Session.StoreAfterLogout | Blazor/Services/AuthState.cs:107-108 | both the "authstate" and the token entry are gone; nothing else changes |
| Session.AuthState.constructor | Blazor/Services/AuthState.cs:26-53 | a new session is logged out, with no name, roles, token or payload |
| Session.AuthState.NotifyStateChanged | Blazor/Services/AuthState.cs:206 | raises OnChange once and changes no field |
| Session.AuthState.SaveAsync | Blazor/Services/AuthState.cs:115-127 | stores the encrypted record of the current fields under "authstate"; a no-op without a runtime |
| Session.AuthState.RemoveAsync | Blazor/Services/AuthState.cs:186-191 | deletes the "authstate" entry; a no-op without a runtime |
| Session.AuthState.RemoveJwtAsync | Blazor/Services/AuthState.cs:196-201 | deletes the token entry; a no-op without a runtime |
| Session.AuthState.LoginAsync | Blazor/Services/AuthState.cs:58-65 | the fields become `LoggedIn`, the record is persisted, one notification |
| Session.AuthState.LoginWithJwtAsync | Blazor/Services/AuthState.cs:70-95 | no runtime: nothing changes; a payload that cannot be bound: the token is stored and the call faults; otherwise the fields become `JwtLoggedIn`, persisted, one notification |
| Session.AuthState.LogoutAsync | Blazor/Services/AuthState.cs:100-110 | the fields become `LoggedOut`, both entries are removed, one notification |
| Session.AuthState.LoadAsync | Blazor/Services/AuthState.cs:132-181 | the fields become `Loaded` of the given runtime's storage; one notification; storage is only read |
| Session.SavedRecord | Blazor/Services/AuthState.cs:115-127 | the decrypted "authstate" entry is the JSON of exactly {IsLoggedIn, UserName, Roles}; the token entry is untouched |
| Session.StoreAfterSave | Blazor/Services/AuthState.cs:115-127 | the storage after a save; stated by SavedRecord |
| Session.Loaded | Blazor/Services/AuthState.cs:132-181 | the fields after a load; stated by LoadRecordHalf, LoadTokenHalf and LoadWithNothingUsable |
| Session.LoadWithNothingUsable | Blazor/Services/AuthState.cs:137-179 | with no usable record and no usable token, loading changes nothing |
| Session.LoadRecordHalf | Blazor/Services/AuthState.cs:137-151 | no record, an empty one or one that fails to deserialise leaves the fields; a record sets flag, name and roles (empty when null) |
| Session.LoadTokenHalf | Blazor/Services/AuthState.cs:154-178 | a token that decodes forces logged in, with the payload's display name, the token and payload, and the record's roles; otherwise the record's values stand |
| Session.LoginThenReload | Blazor/Services/AuthState.cs:58-65 | log in, then load a new session from the same storage with no token stored: logged in with that name and those roles |
| Session.LogoutThenReload | Blazor/Services/AuthState.cs:100-110 | after logout a session that loads from the same storage stays logged out |
| Session.DecodedTokenNotEmpty | Blazor/Services/AuthState.cs:155-160 | a token the decoder reads a payload from is never empty |
| Session.JwtLoginThenReload | Blazor/Services/AuthState.cs:70-95 | a JWT login with a decodable token survives a reload with exactly the same fields |
| Session.UndecodedJwtLoginThenReload | Blazor/Services/AuthState.cs:80-86 | a JWT login whose token decodes to null logs in with the token, but a reload is logged in without it |
| ApiService.CreateAuthenticatedRequest | Blazor/Services/APIService.cs:17-36 | exactly the given method and URL; a header exactly when logged in with a non-empty token, and then "Bearer" with that token |
| ApiService.LoggedTokenPrefix | Blazor/Services/APIService.cs:26 | the logged prefix has length min(50, token length), so it is never out of range |
| ApiService.NoHeaderAfterLogout | Blazor/Services/APIService.cs:22 | a logged-out session sends no credentials |
| ApiService.BearerAfterJwtLogin | Blazor/Services/APIService.cs:22-24 | after a JWT login with a non-empty token every request carries exactly that token |
| ApiService.LoginKeepsToken | Blazor/Services/APIService.cs:22-24 | a name-and-roles login sends a header exactly when a token was already held |
| ApiService.NoHeaderAfterUndecodedReload | Blazor/Services/APIService.cs:22 | a reload after a login with an undecodable token is logged in yet sends no header |
| JwtService.AddInt32 | API/Service/JWTService.cs:40 | `ExpiryMinutes + 120` as C#'s unchecked `int` addition: the sum, wrapped past Int32.MaxValue |
| JwtService.AddMinutes | API/Service/JWTService.cs:40 | `AddMinutes` succeeds exactly when the result is a valid `DateTime`, and then adds the minutes |
| JwtService.AsciiBytes | API/Service/JWTService.cs:31 | one byte per char: the code below 128, '?' otherwise |
| JwtService.Describe | API/Service/JWTService.cs:31-44 | the descriptor; its contents are stated by DescriptorContents, when it exists by DescribeDefined, its expiry by ExpiryMargin and ExpiryOverflow |
| JwtService.WriteToken | API/Service/JWTService.cs:45-46 | the compact serialisation; its shape is stated by TokenSegments, what the client reads from it by ClientDecodesIssuedToken |
| JwtService.GenerateToken | API/Service/JWTService.cs:28-47 | the issued token; when there is one is stated by TokenIssued, what it carries by DescriptorContents and ClientDecodesIssuedToken |
| JwtService.DescriptorContents | API/Service/JWTService.cs:31-43 | exactly the three identity claims with the user's id, name and email ("" when null), no roles; configured issuer and audience; ASCII key; HS256 |
| JwtService.DescribeDefined | API/Service/JWTService.cs:31-40 | a token is built exactly when a secret is configured and the expiry is a valid date |
| JwtService.ExpiryMargin | API/Service/JWTService.cs:40 | unless the sum overflows, expiry is now plus ExpiryMinutes + 120 minutes |
| JwtService.ExpiryOverflow | API/Service/JWTService.cs:40-45 | when the sum overflows, the expiry precedes the current time, so the handler refuses and no token is issued |
| JwtService.TokenIssued | API/Service/JWTService.cs:31-46 | a token is issued exactly when a secret is configured, ExpiryMinutes + 120 is positive without overflow, and the expiry is a valid date |
| JwtService.TokenSegments | API/Service/JWTService.cs:45-46 | an issued token has three dot-free segments, the second the base64url of the claims JSON |
| JwtService.ClientDecodesIssuedToken | API/Service/JWTService.cs:28-47 | the client's decodeJWT reads back exactly the claims JSON of an issued token |
| UserController.Utf16Length | API/Controllers/UserController.cs:79 | `MinLength` counts UTF-16 code units: between one and two per char |
| UserController.Lower | API/Controllers/UserController.cs:31-32 | ASCII capitals lowered, everything else kept |
| UserController.LowerIdempotent | API/Controllers/UserController.cs:31-32 | lowering twice is lowering once |
| UserController.FindByEmail | API/Controllers/UserController.cs:58-59 | the first user, in table order, whose lowercased email matches; none exactly when no user matches |
| UserController.FindAppended | API/Controllers/UserController.cs:58-59 | when no stored user matches, a matching user appended last is found |
| UserController.RegisterOutcome | API/Controllers/UserController.cs:26-49 | the response and new table; stated by InvalidRegisterRejected, NameCheckedFirst, RegisterEffect and RegisterKeepsNormalized |
| UserController.Login | API/Controllers/UserController.cs:52-68 | the model-state rejection exactly for an invalid request; Unauthorized only with one of the two fixed messages; the only other outcomes are a token or a server error; each branch is stated by the lemmas below |
| UserController.UserController.constructor | API/Controllers/UserController.cs:19-23 | a controller over the given table |
| UserController.UserController.Register | API/Controllers/UserController.cs:26-49 | the response and the new table are `RegisterOutcome` of the old table |
| UserController.InvalidRegisterRejected | API/Controllers/UserController.cs:28-29 | a missing field, a password under 6 chars or a bad email is rejected with the table unchanged |
| UserController.NameCheckedFirst | API/Controllers/UserController.cs:34-37 | when name and email both collide, the name message is returned |
| UserController.RegisterEffect | API/Controllers/UserController.cs:34-47 | a rejection leaves the table; success appends exactly one user with the lowercased name and email and the password's hash |
| UserController.RegisterKeepsNormalized | API/Controllers/UserController.cs:31-46 | registration keeps names and emails lowercase and unique |
| UserController.AppendKeepsNormalized | API/Controllers/UserController.cs:34-46 | appending a lowercase user whose name and email are not taken keeps the table normalized |
| UserController.RegisterThenLogin | API/Controllers/UserController.cs:57-67 | a registered user logs in with any case-variant of the email and the same password, and gets the token of the stored user |
| UserController.UnknownEmailRejected | API/Controllers/UserController.cs:60-61 | an email no user has, in any case, gets Unauthorized "Bruger findes ikke." |
| UserController.WrongPasswordRejected | API/Controllers/UserController.cs:63-64 | a found user whose hash rejects the password gets Unauthorized "Forkert adgangskode." |
| UserController.UnreadableHashFails | API/Controllers/UserController.cs:63 | a found user with a null or unreadable hash makes BCrypt throw: a server error |
| UserController.UnauthorizedExactly | API/Controllers/UserController.cs:57-64 | "Bruger findes ikke." exactly when no user has the email; "Forkert adgangskode." exactly when the found user's hash rejects the password |
| UserController.LoginOfVerified | API/Controllers/UserController.cs:57-67 | a found user whose hash verifies the password gets the token service's answer: the token, or a server error when it throws |
| UserController.NonPositiveLifetimeFails | API/Controllers/UserController.cs:63-67 | with ExpiryMinutes + 120 not positive or overflowing, even a verified login gets a server error |
| UserController.TokenOnlyForVerifiedPassword | API/Controllers/UserController.cs:63-67 | a token is returned only for the matched user whose stored hash verifies the password, and it is that user's token |
| ApiEndpointResolver.TrimEnd | Blazor/Services/ApiEndpointResolver.cs:56 | a prefix of the endpoint that does not end in '/', with only '/' removed |
| ApiEndpointResolver.Candidates | Blazor/Services/ApiEndpointResolver.cs:31-44 | the three environment entries first, then one configuration entry per null or empty variable |
| ApiEndpointResolver.ResolveApiEndpointAsync | Blazor/Services/ApiEndpointResolver.cs:19-73 | the loop returns what the first-healthy-then-first-set specification gives |
| ApiEndpointResolver.ResolveFirstHealthy | Blazor/Services/ApiEndpointResolver.cs:46-67 | the first candidate in order that is set and passes its probe is returned untrimmed |
| ApiEndpointResolver.FirstHealthyAt | Blazor/Services/ApiEndpointResolver.cs:46-67 | the first passing candidate is the one the search finds |
| ApiEndpointResolver.NoneHealthy | Blazor/Services/ApiEndpointResolver.cs:46-67 | with no passing candidate the search finds nothing |
| ApiEndpointResolver.FirstSetAt | Blazor/Services/ApiEndpointResolver.cs:70 | the first set candidate is the fallback found |
| ApiEndpointResolver.NoneSet | Blazor/Services/ApiEndpointResolver.cs:70 | with no set candidate there is no fallback |
| ApiEndpointResolver.ResolveFallback | Blazor/Services/ApiEndpointResolver.cs:70-72 | when no probe passes: the first set candidate, else "http://localhost:5253/" |
| ApiEndpointResolver.FirstHealthyIsSet | Blazor/Services/ApiEndpointResolver.cs:48-49 | whatever either search finds is non-empty |
| ApiEndpointResolver.ResolveNotEmpty | Blazor/Services/ApiEndpointResolver.cs:46-72 | the result is never empty |
| ApiEndpointResolver.OnlySetCandidatesProbed | Blazor/Services/ApiEndpointResolver.cs:48-49 | probes of unset candidates cannot influence the result |
| ApiEndpointResolver.SameFirstHealthy | Blazor/Services/ApiEndpointResolver.cs:48-49 | probes agreeing on the set candidates give the same first healthy one |
| ApiEndpointResolver.ConfigEntries | Blazor/Services/ApiEndpointResolver.cs:39-44 | each configuration entry is a candidate exactly when its variable is null or empty |
| ApiEndpointResolver.ConfigOrder | Blazor/Services/ApiEndpointResolver.cs:39-44 | the configuration entries follow in the order DockerCompose, LocalDevelopment, Production |
| ApiEndpointResolver.FallbackOrderIgnored | Blazor/Services/ApiEndpointResolver.cs:27-28 | `FallbackOrder` has no effect on the result |
| Bookings.DivTruncate | DomainModels/Booking.cs:18 | the quotient truncated toward zero, for both signs |
| Bookings.Charges | DomainModels/Booking.cs:19 | the sum throws exactly when some booking room's Room is not loaded |
| Bookings.CalculateTotalPrice | DomainModels/Booking.cs:13-20 | 0 without rooms; throws exactly when some room is not loaded; otherwise the value stated by TotalIsDaysTimesPrices |
| Bookings.NoRoomsNoCharge | DomainModels/Booking.cs:15-16 | a booking without rooms costs 0 |
| Bookings.ChargesFactor | DomainModels/Booking.cs:19 | a computed sum of price times days is days times the sum of prices |
| Bookings.TotalIsDaysTimesPrices | DomainModels/Booking.cs:18-19 | a computed total is the whole number of days times the sum of the room prices |
| Bookings.PriceSumNonNegative | DomainModels/Booking.cs:19 | non-negative prices have a non-negative sum |
| Bookings.TotalNonNegative | DomainModels/Booking.cs:18-19 | checkout not before check-in and no negative price give a non-negative total |
| Bookings.PartialDaysDropped | DomainModels/Booking.cs:18 | a stay under a day costs 0, and swapped dates negate the total |
| AuditStamping.Clock.UtcNow | API/Data/AppDbContext.cs:52-54 | the next reading of the clock |
| AuditStamping.GuidSource.NewGuid | API/Data/AppDbContext.cs:49 | the next GUID of the source |
| AuditStamping.Stamped | API/Data/AppDbContext.cs:44-56 | one stamp set per entry, each taken at the readings and draws the entries before it used |
| AuditStamping.Tracking | API/Data/AppDbContext.cs:44 | the state, kind and stamps of each tracked entry |
| AuditStamping.Snapshot | API/Data/AppDbContext.cs:44 | the stamps of each tracked entity |
| AuditStamping.StampEntry | API/Data/AppDbContext.cs:46-55 | one entity stamped in place, taking one reading (two when added) and one GUID when its Id is null or empty |
| AuditStamping.PartlyStamped | API/Data/AppDbContext.cs:44-56 | after `i` entries, those before `i` stamped and the rest as they were |
| AuditStamping.StampEntryAt | API/Data/AppDbContext.cs:46-55 | entry `i` stamped; every other tracked entity unchanged |
| AuditStamping.StampNext | API/Data/AppDbContext.cs:44-56 | one pass of the loop takes the stamping from the first `i` entries to the first `i + 1`, consuming that entry's clock readings and GUIDs |
| AuditStamping.StampEntries | API/Data/AppDbContext.cs:44-56 | every tracked entity ends as `Stamped` says, and the clock and GUID source advance by exactly the calls made |
| AuditStamping.WriteCount | API/Data/AppDbContext.cs:57 | what the base save reports for the states it finds: at most one per entry, 0 exactly when no entry is added, modified or deleted |
| AuditStamping.States | API/Data/AppDbContext.cs:44 | the state of each tracked entry, in order |
| AuditStamping.DetectedStates | API/Data/AppDbContext.cs:54-57 | the states the base save finds after change detection, entry by entry: an unchanged entity whose stamps changed is modified |
| AuditStamping.WriteCountMonotone | API/Data/AppDbContext.cs:57 | writing more entries never lowers the count |
| AuditStamping.StampedIds | API/Data/AppDbContext.cs:48-49 | every Common entity ends with a non-empty Id, and a non-empty Id is kept |
| AuditStamping.StampedTimes | API/Data/AppDbContext.cs:51-54 | an added entry's CreatedAt is the current reading; other entries keep CreatedAt; every Common entry's UpdatedAt is the next reading, whatever its state |
| AuditStamping.NonCommonUntouched | API/Data/AppDbContext.cs:46 | entities not deriving from Common are left as they were |
| AuditStamping.CreatedNotAfterUpdated | API/Data/AppDbContext.cs:52-54 | with a clock that never goes back, an added entry's CreatedAt is not after its UpdatedAt |
| AuditStamping.ReadingsGrow | API/Data/AppDbContext.cs:44-56 | the readings before a later entry include an earlier entry's and all before it |
| AuditStamping.StampedInOrder | API/Data/AppDbContext.cs:44-56 | with a clock that never goes back, UpdatedAt never decreases along the entries |
| AuditStamping.StampedWrites | API/Data/AppDbContext.cs:44-57 | after stamping, an entry is written exactly when it was added, modified or deleted, or is an unchanged Common entry whose Id was null or empty or whose UpdatedAt differs from its new reading |
| AuditStamping.UnchangedCommonWritten | API/Data/AppDbContext.cs:54-57 | a single unchanged Common entry whose UpdatedAt moves makes the save report 1 |
| AppDb.AppDbContext.constructor | API/Data/AppDbContext.cs:8 | a context over the given entries, clock and GUID source |
| AppDb.AppDbContext.SaveChanges | API/Data/AppDbContext.cs:42-58 | stamps every tracked entity as `Stamped` says, then returns the base count over the states change detection finds, which is at least the count before stamping |
| AppDb.AppDbContext.SaveChangesAccepting | API/Data/AppDbContext.cs:60-63 | changes no entity, clock or GUID source; returns the base count |
| AppDb.AppDbContext.SaveChangesAsync | API/Data/AppDbContext.cs:66-82 | the same stamping and count as `SaveChanges()` |
| Db.DbContext.constructor | API/Data/DbContext.cs:8 | a context over the given entries, clock and GUID source |
| Db.DbContext.SaveChanges | API/Data/DbContext.cs:28-44 | stamps every tracked entity as `Stamped` says, then returns the base count over the states change detection finds, which is at least the count before stamping |
| Db.DbContext.SaveChangesAccepting | API/Data/DbContext.cs:46-49 | changes no entity, clock or GUID source; returns the base count |
| Db.DbContext.SaveChangesAsync | API/Data/DbContext.cs:52-55 | changes no entity, clock or GUID source; returns the base count |

## Left out

- The CDN script check `ensureCryptoJS` (Blazor/wwwroot/js/secureStorage.js:4-8) is not modelled: CryptoJS is taken to be loaded. A decryption that throws on a corrupt entry is not modelled either; `decrypt` is total.
- `decodeJWT` is modelled on code points, not UTF-16 code units. `atob` and decodeURIComponent therefore see one char per scalar value, and a lone surrogate cannot occur.
- UserController.Lower: lowers ASCII capitals only. `ToLowerInvariant` and the database's `ToLower` also map non-ASCII letters.
- UserController.Login: its own contract only classifies the outcomes. Each branch is stated by a lemma: UnknownEmailRejected, WrongPasswordRejected, UnreadableHashFails, LoginOfVerified and NonPositiveLifetimeFails, with UnauthorizedExactly and TokenOnlyForVerifiedPassword for the converses.
- The messages of `BadRequest(ModelState)` are not modelled, nor is model binding of a malformed JSON body.
- The `[EmailAddress]` rule is an abstract predicate.
- JwtService: of the handler's own checks only `Expires` after `NotBefore` is modelled, with the handler's clock reading taken to be the service's. The HMAC key length check and the `iat`/`nbf` claims it adds are not modelled.
- JwtService: the claims JSON and the HMAC are abstract functions.
- SecureStorage.Split: its contract only bounds the number of parts. What `decodeJWT` needs from it is stated by SplitAtFirstDot and SplitDotFree.
- Roles are a sequence value. A caller holding the `Roles` list and seeing it emptied by `Roles.Clear()` at logout is not modelled.
- When Entity Framework wraps SaveChangesAsync inside Register, its effect on the new user's timestamps is not connected to the controller model. The controller takes the new Id as an input.
- EF Core internals beyond change detection of the stamped fields are not modelled: the state after saving, dispatch between the base overloads, and the exception EF Core raises when a stamped Id is a key of an unchanged entity. The base save is reduced to its count `WriteCount`.
- Bookings.CalculateTotalPrice: a `BookingRooms` collection that is itself null is not modelled; it is initialised to an empty list and only an explicit assignment could make it null.
- `CancellationToken` is not modelled.
- Async execution, logging, HTTP and the `OnChange` subscribers are left out. Calls run in sequence, and the health probe is a predicate that is false on any exception.
- The `decimal` type's range, scale and rounding are left out.
- `DateTime` kinds and time zones are left out.
- Outside this model: DummyDataService.cs, StatusController.cs, APIService.Status.cs, pwaHelper.js, the Program.cs files, the generated API/Models files, and the model configuration `OnModelCreating`.
