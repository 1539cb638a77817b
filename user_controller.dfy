/**
 * API/Controllers/UserController.cs: registration and login against the
 * `Users` table, with the validation attributes of the two request bodies.
 *
 * The table is a sequence of users in storage order. BCrypt, the
 * `[EmailAddress]` rule and the token writer are abstract; the random salt
 * of `HashPassword` and the fresh `Guid` of a new entity are inputs.
 */
module UserController {
  import opened Wrappers
  import DomainModels
  import JwtService

  const NameTaken: string := "Brugernavn er allerede taget."
  const EmailTaken: string := "Email er allerede i brug."
  const Created: string := "Bruger oprettet!"
  const UnknownUser: string := "Bruger findes ikke."
  const WrongPassword: string := "Forkert adgangskode."

  datatype RegisterRequest = RegisterRequest(name: Option<string>, email: Option<string>, password: Option<string>)
  datatype LoginRequest = LoginRequest(email: Option<string>, password: Option<string>)

  /**
   * The action results: `BadRequest(ModelState)` (its messages are not
   * modelled), `BadRequest(message)`, `Ok(message)`, `Ok(new { token })`,
   * `Unauthorized(message)`, and an unhandled exception (status 500).
   */
  datatype Response =
    | InvalidModel
    | BadRequest(message: string)
    | Ok(message: string)
    | OkToken(token: string)
    | Unauthorized(message: string)
    | ServerError

  /** BCrypt: `HashPassword(password)` with its random salt made explicit, and `Verify`, None where it throws (a null or malformed hash). */
  datatype Bcrypt = Bcrypt(hashPassword: (string, string) -> string, verify: (string, string) -> Option<bool>)

  /** All the model relies on about BCrypt: a password verifies against any hash made from it. */
  ghost predicate Sound(bcrypt: Bcrypt) {
    forall password, salt :: bcrypt.verify(password, bcrypt.hashPassword(password, salt)) == Some(true)
  }

  /** What the controller calls: the `[EmailAddress]` rule, BCrypt, and the token service with its settings and library. */
  datatype Services = Services(
    isEmail: string -> bool,
    bcrypt: Bcrypt,
    settings: JwtService.JwtSettings,
    jose: JwtService.Jose)

  // ---------------------------------------------------------------------------
  // Validation attributes

  /** `char.IsWhiteSpace`: the separators of Unicode categories Zs, Zl and Zp, and the controls U+0009-U+000D and U+0085. */
  predicate IsWhiteSpace(c: char) {
    var n := c as int;
    (0x09 <= n <= 0x0D) || n == 0x20 || n == 0x85 || n == 0xA0 || n == 0x1680 ||
    (0x2000 <= n <= 0x200A) || n == 0x2028 || n == 0x2029 || n == 0x202F || n == 0x205F || n == 0x3000
  }

  /** `[Required]` on a string: not null, and not empty or white space only. */
  predicate Required(s: Option<string>) {
    s.Some? && exists i :: 0 <= i < |s.value| && !IsWhiteSpace(s.value[i])
  }

  /** `string.Length`: UTF-16 code units, two for a char beyond U+FFFF. */
  function Utf16Length(s: string): (n: nat)
    ensures |s| <= n <= 2 * |s|
  {
    if s == [] then 0 else (if (s[0] as int) < 0x1_0000 then 1 else 2) + Utf16Length(s[1..])
  }

  /** `[MinLength(n)]` on a string: null passes, otherwise at least `n` UTF-16 code units. */
  predicate MinLength(s: Option<string>, n: nat) {
    s.None? || Utf16Length(s.value) >= n
  }

  /** `[EmailAddress]`: null passes, otherwise the library's rule. */
  predicate EmailAddress(s: Option<string>, isEmail: string -> bool) {
    s.None? || isEmail(s.value)
  }

  /** `ModelState.IsValid` for a `RegisterRequest`. */
  predicate RegisterValid(request: RegisterRequest, isEmail: string -> bool) {
    Required(request.name) &&
    Required(request.email) && EmailAddress(request.email, isEmail) &&
    Required(request.password) && MinLength(request.password, 6)
  }

  /** `ModelState.IsValid` for a `LoginRequest`. */
  predicate LoginValid(request: LoginRequest, isEmail: string -> bool) {
    Required(request.email) && EmailAddress(request.email, isEmail) && Required(request.password)
  }

  /** `ToLowerInvariant` on ASCII: 'A'-'Z' become 'a'-'z'; other chars are kept. */
  function Lower(s: string): (r: string)
    ensures |r| == |s|
    ensures forall i :: 0 <= i < |s| ==> r[i] == if 'A' <= s[i] <= 'Z' then (s[i] as int + 32) as char else s[i]
  {
    if s == [] then [] else [if 'A' <= s[0] <= 'Z' then (s[0] as int + 32) as char else s[0]] + Lower(s[1..])
  }

  lemma LowerIdempotent(s: string)
    ensures Lower(Lower(s)) == s ==> Lower(s) == s
    ensures Lower(Lower(s)) == Lower(s)
  {
  }

  // ---------------------------------------------------------------------------
  // The table

  /** Some user has exactly this name (`AnyAsync(u => u.Name == name)`). */
  predicate HasName(users: seq<DomainModels.User>, name: string) {
    exists i :: 0 <= i < |users| && users[i].name == Some(name)
  }

  /** Some user has exactly this email. */
  predicate HasEmail(users: seq<DomainModels.User>, email: string) {
    exists i :: 0 <= i < |users| && users[i].email == Some(email)
  }

  /** The condition of the login query: the user's email, lowercased, is `email`; a null email matches nothing. */
  predicate EmailMatches(user: DomainModels.User, email: string) {
    user.email.Some? && Lower(user.email.value) == email
  }

  /** `FirstOrDefaultAsync(u => u.Email.ToLower() == email)`: the first matching user in table order. */
  function FindByEmail(users: seq<DomainModels.User>, email: string): (r: Option<DomainModels.User>)
    ensures r.None? <==> forall i :: 0 <= i < |users| ==> !EmailMatches(users[i], email)
    ensures r.Some? ==> EmailMatches(r.value, email)
    ensures r.Some? ==> exists i :: 0 <= i < |users| && users[i] == r.value && forall j :: 0 <= j < i ==> !EmailMatches(users[j], email)
  {
    if users == [] then None
    else if EmailMatches(users[0], email) then Some(users[0])
    else
      var r := FindByEmail(users[1..], email);
      if r.Some? then
        ghost var k :| 0 <= k < |users| - 1 && users[1..][k] == r.value &&
          forall j :: 0 <= j < k ==> !EmailMatches(users[1..][j], email);
        assert users[k + 1] == r.value;
        r
      else
        assert forall i :: 1 <= i < |users| ==> users[i] == users[1..][i - 1];
        r
  }

  /** When no stored user matches, a matching user appended at the end is the one found. */
  lemma {:induction false} FindAppended(users: seq<DomainModels.User>, user: DomainModels.User, email: string)
    requires forall i :: 0 <= i < |users| ==> !EmailMatches(users[i], email)
    requires EmailMatches(user, email)
    ensures FindByEmail(users + [user], email) == Some(user)
  {
    if users != [] {
      assert (users + [user])[1..] == users[1..] + [user];
      FindAppended(users[1..], user, email);
    }
  }

  /** The user `Register` adds for a valid request. */
  function NewUser(request: RegisterRequest, bcrypt: Bcrypt, id: string, salt: string): DomainModels.User
    requires request.name.Some? && request.email.Some? && request.password.Some?
  {
    DomainModels.User(Some(id), Some(Lower(request.name.value)), Some(Lower(request.email.value)),
      Some(bcrypt.hashPassword(request.password.value, salt)))
  }

  /**
   * What `Register` answers and what the table is afterwards: an invalid
   * request, a taken lowercased name, then a taken lowercased email are
   * rejected before the table is touched; otherwise the new user is appended.
   */
  function RegisterOutcome(users: seq<DomainModels.User>, request: RegisterRequest, services: Services, id: string, salt: string)
    : (Response, seq<DomainModels.User>)
  {
    if !RegisterValid(request, services.isEmail) then (InvalidModel, users)
    else if HasName(users, Lower(request.name.value)) then (BadRequest(NameTaken), users)
    else if HasEmail(users, Lower(request.email.value)) then (BadRequest(EmailTaken), users)
    else (Ok(Created), users + [NewUser(request, services.bcrypt, id, salt)])
  }

  /**
   * `Login(request)` at clock reading `now`: an invalid request, an unknown
   * email, a missing or unreadable hash (BCrypt throws), a wrong password,
   * a token that cannot be built (the service throws), or the token.
   */
  function Login(users: seq<DomainModels.User>, request: LoginRequest, services: Services, now: JwtService.Ticks): (r: Response)
    ensures !LoginValid(request, services.isEmail) <==> r == InvalidModel
    ensures r.Unauthorized? ==> r.message == UnknownUser || r.message == WrongPassword
    ensures !r.InvalidModel? && !r.Unauthorized? && !r.OkToken? ==> r == ServerError
  {
    if !LoginValid(request, services.isEmail) then InvalidModel
    else match FindByEmail(users, Lower(request.email.value))
      case None => Unauthorized(UnknownUser)
      case Some(user) =>
        if user.passwordHash.None? then ServerError
        else match services.bcrypt.verify(request.password.value, user.passwordHash.value)
          case None => ServerError
          case Some(false) => Unauthorized(WrongPassword)
          case Some(true) =>
            match JwtService.GenerateToken(user, services.settings, now, services.jose)
            case None => ServerError
            case Some(token) => OkToken(token)
  }

  class UserController {
    /** `_context.Users`. */
    var users: seq<DomainModels.User>
    const services: Services

    constructor (users: seq<DomainModels.User>, services: Services)
      ensures this.users == users && this.services == services
    {
      this.users := users;
      this.services := services;
    }

    /** `Register(request)`; `id` is the `Guid` the new `User` gets from `Common`, `salt` the one BCrypt draws. */
    method Register(request: RegisterRequest, id: string, salt: string) returns (response: Response)
      modifies this
      ensures (response, users) == RegisterOutcome(old(users), request, services, id, salt)
    {
      if !RegisterValid(request, services.isEmail) {
        return InvalidModel;
      }
      var normalizedEmail := Lower(request.email.value);
      var normalizedName := Lower(request.name.value);
      if HasName(users, normalizedName) {
        return BadRequest(NameTaken);
      }
      if HasEmail(users, normalizedEmail) {
        return BadRequest(EmailTaken);
      }
      var user := DomainModels.User(Some(id), Some(normalizedName), Some(normalizedEmail),
        Some(services.bcrypt.hashPassword(request.password.value, salt)));
      users := users + [user];
      response := Ok(Created);
    }
  }

  // ---------------------------------------------------------------------------
  // Properties

  /** A request failing validation is rejected and leaves the table as it was. */
  lemma InvalidRegisterRejected(users: seq<DomainModels.User>, request: RegisterRequest, services: Services, id: string, salt: string)
    requires !Required(request.name) || !Required(request.email) || !Required(request.password) ||
      !MinLength(request.password, 6) || !EmailAddress(request.email, services.isEmail)
    ensures RegisterOutcome(users, request, services, id, salt) == (InvalidModel, users)
  {
  }

  /** When both the name and the email are taken, the name message wins. */
  lemma NameCheckedFirst(users: seq<DomainModels.User>, request: RegisterRequest, services: Services, id: string, salt: string)
    requires RegisterValid(request, services.isEmail)
    requires HasName(users, Lower(request.name.value))
    ensures RegisterOutcome(users, request, services, id, salt).0 == BadRequest(NameTaken)
  {
  }

  /**
   * A rejected registration leaves the table unchanged; an accepted one
   * appends exactly one user, carrying the lowercased name and email and the
   * BCrypt hash of the password under the drawn salt.
   */
  lemma RegisterEffect(users: seq<DomainModels.User>, request: RegisterRequest, services: Services, id: string, salt: string)
    ensures var (response, after) := RegisterOutcome(users, request, services, id, salt);
      (response != Ok(Created) ==> after == users) &&
      (response == Ok(Created) ==>
        |after| == |users| + 1 && after[..|users|] == users &&
        after[|users|].name == Some(Lower(request.name.value)) &&
        after[|users|].email == Some(Lower(request.email.value)) &&
        after[|users|].passwordHash == Some(services.bcrypt.hashPassword(request.password.value, salt)))
  {
    var (response, after) := RegisterOutcome(users, request, services, id, salt);
    if response == Ok(Created) {
      assert after[..|users|] == users;
    }
  }

  /** Every stored name and email is null or already lowercase, and no two users share a name or an email. */
  predicate Normalized(users: seq<DomainModels.User>) {
    (forall i :: 0 <= i < |users| && users[i].email.Some? ==> Lower(users[i].email.value) == users[i].email.value) &&
    (forall i :: 0 <= i < |users| && users[i].name.Some? ==> Lower(users[i].name.value) == users[i].name.value) &&
    (forall i, j :: 0 <= i < j < |users| && users[i].email.Some? ==> users[i].email != users[j].email) &&
    (forall i, j :: 0 <= i < j < |users| && users[i].name.Some? ==> users[i].name != users[j].name)
  }

  /** Registration keeps the table normalized: lowercase names and emails, each at most once. */
  lemma RegisterKeepsNormalized(users: seq<DomainModels.User>, request: RegisterRequest, services: Services, id: string, salt: string)
    requires Normalized(users)
    ensures Normalized(RegisterOutcome(users, request, services, id, salt).1)
  {
    var (response, after) := RegisterOutcome(users, request, services, id, salt);
    if response == Ok(Created) {
      LowerIdempotent(request.name.value);
      LowerIdempotent(request.email.value);
      AppendKeepsNormalized(users, NewUser(request, services.bcrypt, id, salt));
    }
  }

  /** Appending a lowercase user whose name and email are not taken keeps the table normalized. */
  lemma AppendKeepsNormalized(users: seq<DomainModels.User>, u: DomainModels.User)
    requires Normalized(users)
    requires u.email.Some? && Lower(u.email.value) == u.email.value && !HasEmail(users, u.email.value)
    requires u.name.Some? && Lower(u.name.value) == u.name.value && !HasName(users, u.name.value)
    ensures Normalized(users + [u])
  {
    var after := users + [u];
    forall i | 0 <= i < |after| && after[i].email.Some? ensures Lower(after[i].email.value) == after[i].email.value {
      if i < |users| { assert after[i] == users[i]; }
    }
    forall i | 0 <= i < |after| && after[i].name.Some? ensures Lower(after[i].name.value) == after[i].name.value {
      if i < |users| { assert after[i] == users[i]; }
    }
    forall i, j | 0 <= i < j < |after| && after[i].email.Some? ensures after[i].email != after[j].email {
      assert after[i] == users[i];
      if j < |users| { assert after[j] == users[j]; } else { assert users[i].email != Some(u.email.value); }
    }
    forall i, j | 0 <= i < j < |after| && after[i].name.Some? ensures after[i].name != after[j].name {
      assert after[i] == users[i];
      if j < |users| { assert after[j] == users[j]; } else { assert users[i].name != Some(u.name.value); }
    }
  }

  /**
   * Over a normalized table, a user who registers can log in with any
   * case-variant of the email and the same password, and gets the token of
   * the user just stored.
   */
  lemma RegisterThenLogin(users: seq<DomainModels.User>, request: RegisterRequest, services: Services, id: string, salt: string,
                          email: string, now: JwtService.Ticks)
    requires Normalized(users) && Sound(services.bcrypt)
    requires RegisterOutcome(users, request, services, id, salt).0 == Ok(Created)
    requires Lower(email) == Lower(request.email.value)
    requires LoginValid(LoginRequest(Some(email), request.password), services.isEmail)
    ensures var after := RegisterOutcome(users, request, services, id, salt).1;
      var user := NewUser(request, services.bcrypt, id, salt);
      Login(after, LoginRequest(Some(email), request.password), services, now) ==
        match JwtService.GenerateToken(user, services.settings, now, services.jose)
        case None => ServerError
        case Some(token) => OkToken(token)
  {
    var user := NewUser(request, services.bcrypt, id, salt);
    var target := Lower(email);
    assert !HasEmail(users, target);
    forall i | 0 <= i < |users| ensures !EmailMatches(users[i], target) {
      assert users[i].email != Some(target);
    }
    LowerIdempotent(request.email.value);
    assert EmailMatches(user, target);
    FindAppended(users, user, target);
    assert RegisterOutcome(users, request, services, id, salt).1 == users + [user];
    assert services.bcrypt.verify(request.password.value, user.passwordHash.value) == Some(true);
    LoginOfVerified(users + [user], LoginRequest(Some(email), request.password), services, now, user);
  }

  /** A valid login request that finds a user whose hash verifies the password is answered by the token service. */
  lemma LoginOfVerified(users: seq<DomainModels.User>, request: LoginRequest, services: Services, now: JwtService.Ticks,
                        user: DomainModels.User)
    requires LoginValid(request, services.isEmail)
    requires FindByEmail(users, Lower(request.email.value)) == Some(user)
    requires user.passwordHash.Some? && services.bcrypt.verify(request.password.value, user.passwordHash.value) == Some(true)
    ensures Login(users, request, services, now) ==
      match JwtService.GenerateToken(user, services.settings, now, services.jose)
      case None => ServerError
      case Some(token) => OkToken(token)
  {
  }

  /** A valid login request that finds a user whose hash rejects the password is answered with "Forkert adgangskode.". */
  lemma WrongPasswordRejected(users: seq<DomainModels.User>, request: LoginRequest, services: Services, now: JwtService.Ticks,
                              user: DomainModels.User)
    requires LoginValid(request, services.isEmail)
    requires FindByEmail(users, Lower(request.email.value)) == Some(user)
    requires user.passwordHash.Some? && services.bcrypt.verify(request.password.value, user.passwordHash.value) == Some(false)
    ensures Login(users, request, services, now) == Unauthorized(WrongPassword)
  {
  }

  /**
   * A configured lifetime with `ExpiryMinutes + 120` not positive (or
   * overflowing) makes even a verified login fail with a server error.
   */
  lemma NonPositiveLifetimeFails(users: seq<DomainModels.User>, request: LoginRequest, services: Services, now: JwtService.Ticks,
                                 user: DomainModels.User)
    requires LoginValid(request, services.isEmail)
    requires FindByEmail(users, Lower(request.email.value)) == Some(user)
    requires user.passwordHash.Some? && services.bcrypt.verify(request.password.value, user.passwordHash.value) == Some(true)
    requires services.settings.expiryMinutes <= -120 || services.settings.expiryMinutes > JwtService.Int32Max - 120
    ensures Login(users, request, services, now) == ServerError
  {
    JwtService.TokenIssued(user, services.settings, now, services.jose);
  }

  /** A found user whose stored hash is missing, or is not one BCrypt can read, makes the login fail with a server error. */
  lemma UnreadableHashFails(users: seq<DomainModels.User>, request: LoginRequest, services: Services, now: JwtService.Ticks,
                            user: DomainModels.User)
    requires LoginValid(request, services.isEmail)
    requires FindByEmail(users, Lower(request.email.value)) == Some(user)
    requires user.passwordHash.None? || services.bcrypt.verify(request.password.value, user.passwordHash.value).None?
    ensures Login(users, request, services, now) == ServerError
  {
  }

  /**
   * The two refusals exactly: "Bruger findes ikke." when no user has the
   * email, "Forkert adgangskode." when the found user's hash rejects the password.
   */
  lemma UnauthorizedExactly(users: seq<DomainModels.User>, request: LoginRequest, services: Services, now: JwtService.Ticks)
    ensures Login(users, request, services, now) == Unauthorized(UnknownUser) <==>
      LoginValid(request, services.isEmail) && FindByEmail(users, Lower(request.email.value)).None?
    ensures Login(users, request, services, now) == Unauthorized(WrongPassword) <==>
      LoginValid(request, services.isEmail) &&
      var user := FindByEmail(users, Lower(request.email.value));
      user.Some? && user.value.passwordHash.Some? &&
      services.bcrypt.verify(request.password.value, user.value.passwordHash.value) == Some(false)
  {
  }

  /** An email no user has, in any case, is answered with "Bruger findes ikke.". */
  lemma UnknownEmailRejected(users: seq<DomainModels.User>, request: LoginRequest, services: Services, now: JwtService.Ticks)
    requires LoginValid(request, services.isEmail)
    requires forall i :: 0 <= i < |users| ==> !EmailMatches(users[i], Lower(request.email.value))
    ensures Login(users, request, services, now) == Unauthorized(UnknownUser)
  {
  }

  /** A token is only handed out for a user whose stored hash verifies the supplied password. */
  lemma TokenOnlyForVerifiedPassword(users: seq<DomainModels.User>, request: LoginRequest, services: Services, now: JwtService.Ticks)
    requires Login(users, request, services, now).OkToken?
    ensures var user := FindByEmail(users, Lower(request.email.value));
      user.Some? && user.value.passwordHash.Some? &&
      services.bcrypt.verify(request.password.value, user.value.passwordHash.value) == Some(true) &&
      JwtService.GenerateToken(user.value, services.settings, now, services.jose) == Some(Login(users, request, services, now).token)
  {
    var user := FindByEmail(users, Lower(request.email.value));
    assert LoginValid(request, services.isEmail);
    assert user.Some?;
    assert user.value.passwordHash.Some?;
    var verdict := services.bcrypt.verify(request.password.value, user.value.passwordHash.value);
    assert verdict == Some(true);
  }
}
