/**
 * Blazor/Services/AuthState.cs: the client's session (logged out or logged
 * in, with a user name, roles and an optional JWT), persisted encrypted in
 * the browser's storage through the secureStorage.js module.
 *
 * The JS runtime is the optional `BrowserStorage` the session was built
 * with (null in prerendering, where every storage step is skipped). `OnChange`
 * is a counter of notifications. JSON on both sides of the interop boundary
 * is the abstract `Json` codec.
 */
module Session {
  import opened Wrappers
  import SecureStorage

  /** The storage key of the serialised session record. */
  const StorageKey: string := "authstate"

  /** The user name shown when the token's payload has neither a name nor an email. */
  const UnknownUser: string := "Ukendt bruger"

  /** `JWTPayload`: the claims the client reads from a token. */
  datatype JwtPayload = JwtPayload(
    id: Option<string>,
    name: Option<string>,
    email: Option<string>,
    exp: int,
    iat: int,
    nbf: int,
    issuer: Option<string>,
    audience: Option<string>)

  /** `AuthStateDto`: the record `SaveAsync` serialises. */
  datatype AuthStateDto = AuthStateDto(isLoggedIn: bool, userName: Option<string>, roles: Option<seq<string>>)

  /** What `JsonSerializer.Deserialize<AuthStateDto>` gives: a record, null (the text "null"), or a thrown error. */
  datatype Deserialized = Parsed(dto: AuthStateDto) | JsonNull | JsonError

  /**
   * The value `JSON.parse` produces inside `decodeJWT`, as the interop layer
   * binds it to `JWTPayload`: an object it binds, `null`, or a value it cannot
   * bind (a number, a claim of the wrong type), on which the call throws.
   */
  datatype JsPayload = Object(payload: JwtPayload) | JsNull | Unbindable

  /** The JSON libraries: System.Text.Json for the record, `JSON.parse` plus interop binding for the payload. */
  datatype Json = Json(
    serialize: AuthStateDto -> string,
    deserialize: string -> Deserialized,
    parse: string -> Option<JsPayload>)

  /** All the model relies on about the record's JSON: it is non-empty text that deserialises back to the record. */
  ghost predicate Sound(json: Json) {
    forall d :: json.serialize(d) != "" && json.deserialize(json.serialize(d)) == Parsed(d)
  }

  /** The five properties of `AuthState` (the notification counter aside). */
  datatype Fields = Fields(
    isLoggedIn: bool,
    userName: Option<string>,
    roles: seq<string>,
    jwtToken: Option<string>,
    jwtPayload: Option<JwtPayload>)

  /** A freshly constructed `AuthState`. */
  const Initial: Fields := Fields(false, None, [], None, None)

  // ---------------------------------------------------------------------------
  // What each operation does, on values

  /** `UserName = payload?.Name ?? payload?.Email ?? "Ukendt bruger"`. */
  function DisplayName(payload: Option<JwtPayload>): string {
    if payload.Some? && payload.value.name.Some? then payload.value.name.value
    else if payload.Some? && payload.value.email.Some? then payload.value.email.value
    else UnknownUser
  }

  /** What the interop call of `decodeJWT` returns: null when the JS function returned null. */
  function InvokeDecodeJwt(token: string, json: Json): JsPayload {
    SecureStorage.DecodeJwt(token, json.parse).GetOr(JsNull)
  }

  function PayloadOf(d: JsPayload): Option<JwtPayload> {
    if d.Object? then Some(d.payload) else None
  }

  /** `LoginAsync(userName, roles)`, on the fields. */
  function LoggedIn(s: Fields, userName: string, roles: Option<seq<string>>): (r: Fields)
    ensures r.isLoggedIn && r.userName == Some(userName)
    ensures r.roles == (if roles.Some? then roles.value else [])
    ensures r.jwtToken == s.jwtToken && r.jwtPayload == s.jwtPayload
  {
    s.(isLoggedIn := true, userName := Some(userName), roles := roles.GetOr([]))
  }

  /** `LoginWithJWTAsync(token)` with a runtime present, on the fields, once `decodeJWT` gave `payload`. */
  function JwtLoggedIn(s: Fields, token: string, payload: Option<JwtPayload>): (r: Fields)
    ensures r.isLoggedIn && r.jwtToken == Some(token) && r.jwtPayload == payload
    ensures r.roles == []
    ensures payload.Some? && payload.value.name.Some? ==> r.userName == payload.value.name
    ensures payload.Some? && payload.value.name.None? && payload.value.email.Some? ==> r.userName == payload.value.email
    ensures (payload.None? || (payload.value.name.None? && payload.value.email.None?)) ==> r.userName == Some(UnknownUser)
  {
    Fields(true, Some(DisplayName(payload)), [], Some(token), payload)
  }

  /** `LogoutAsync`, on the fields: every property back to its value in a fresh instance. */
  function LoggedOut(s: Fields): (r: Fields)
    ensures r == Initial
  {
    s.(isLoggedIn := false, userName := None, roles := [], jwtToken := None, jwtPayload := None)
  }

  /** The record `SaveAsync` serialises: exactly the login flag, the user name and the roles. */
  function Record(s: Fields): AuthStateDto {
    AuthStateDto(s.isLoggedIn, s.userName, Some(s.roles))
  }

  /** `SaveAsync` with a runtime present, on the store. */
  function StoreAfterSave(store: SecureStorage.Store, aes: SecureStorage.Aes, json: Json, s: Fields): SecureStorage.Store {
    SecureStorage.SetEncryptedItem(store, aes, StorageKey, json.serialize(Record(s)))
  }

  /** `RemoveAsync` then `RemoveJWTAsync` with a runtime present, on the store. */
  function StoreAfterLogout(store: SecureStorage.Store): (r: SecureStorage.Store)
    ensures StorageKey !in r && SecureStorage.JwtTokenKey !in r
    ensures forall k :: k != StorageKey && k != SecureStorage.JwtTokenKey ==> SecureStorage.SameEntry(store, r, k)
  {
    SecureStorage.RemoveJwtToken(SecureStorage.RemoveItem(store, StorageKey))
  }

  /**
   * The first half of `LoadAsync`: when the decrypted record is non-empty and
   * deserialises to a record, the flag, name and roles (empty when null) are
   * taken from it; otherwise, including a thrown error, nothing changes.
   */
  function RestoredFromRecord(s: Fields, stored: Option<string>, json: Json): Fields {
    if IsNullOrEmpty(stored) then s
    else match json.deserialize(stored.value)
      case Parsed(dto) => s.(isLoggedIn := dto.isLoggedIn, userName := dto.userName, roles := dto.roles.GetOr([]))
      case _ => s
  }

  /**
   * The second half of `LoadAsync`: a non-empty stored token that decodes to a
   * payload sets the token, the payload, the login flag and the display name;
   * the roles are kept. Otherwise, including a thrown binding error, nothing
   * changes.
   */
  function RestoredFromToken(s: Fields, token: Option<string>, json: Json): Fields {
    if IsNullOrEmpty(token) then s
    else match InvokeDecodeJwt(token.value, json)
      case Object(p) =>
        s.(jwtToken := token, jwtPayload := Some(p), isLoggedIn := true, userName := Some(DisplayName(Some(p))))
      case _ => s
  }

  /** `LoadAsync`, on the fields. */
  function Loaded(s: Fields, store: SecureStorage.Store, aes: SecureStorage.Aes, json: Json): Fields {
    var afterRecord := RestoredFromRecord(s, SecureStorage.GetDecryptedItem(store, aes, StorageKey), json);
    RestoredFromToken(afterRecord, SecureStorage.GetJwtToken(store, aes), json)
  }

  // ---------------------------------------------------------------------------
  // The session object

  class AuthState {
    var isLoggedIn: bool
    var userName: Option<string>
    var roles: seq<string>
    var jwtToken: Option<string>
    var jwtPayload: Option<JwtPayload>

    /** How many times `OnChange` was raised. */
    var notifications: nat

    /** The JS runtime, or null. */
    const js: SecureStorage.BrowserStorage?
    const json: Json

    function Current(): Fields
      reads this
    {
      Fields(isLoggedIn, userName, roles, jwtToken, jwtPayload)
    }

    /** `new AuthState()` (with `js` null) and `new AuthState(js)`. */
    constructor (js: SecureStorage.BrowserStorage?, json: Json)
      ensures Current() == Initial && notifications == 0
      ensures this.js == js && this.json == json
    {
      isLoggedIn := false;
      userName := None;
      roles := [];
      jwtToken := None;
      jwtPayload := None;
      notifications := 0;
      this.js := js;
      this.json := json;
    }

    /** `NotifyStateChanged`: raises `OnChange` once. */
    method NotifyStateChanged()
      modifies this
      ensures Current() == old(Current())
      ensures notifications == old(notifications) + 1
    {
      notifications := notifications + 1;
    }

    /** `SaveAsync`: the encrypted record under "authstate"; nothing without a runtime. */
    method SaveAsync()
      modifies js
      ensures js != null ==> js.items == StoreAfterSave(old(js.items), js.aes, json, Current())
    {
      if js == null {
        return;
      }
      var state := json.serialize(AuthStateDto(isLoggedIn, userName, Some(roles)));
      js.items := SecureStorage.SetEncryptedItem(js.items, js.aes, StorageKey, state);
    }

    /** `RemoveAsync`: deletes the "authstate" entry; nothing without a runtime. */
    method RemoveAsync()
      modifies js
      ensures js != null ==> js.items == SecureStorage.RemoveItem(old(js.items), StorageKey)
    {
      if js == null {
        return;
      }
      js.items := SecureStorage.RemoveItem(js.items, StorageKey);
    }

    /** `RemoveJWTAsync`: deletes the token entry; nothing without a runtime. */
    method RemoveJwtAsync()
      modifies js
      ensures js != null ==> js.items == SecureStorage.RemoveJwtToken(old(js.items))
    {
      if js == null {
        return;
      }
      js.items := SecureStorage.RemoveJwtToken(js.items);
    }

    /** `LoginAsync(userName, roles)`: logs in, persists, notifies once. */
    method LoginAsync(userName: string, roles: Option<seq<string>>)
      modifies this, js
      ensures Current() == LoggedIn(old(Current()), userName, roles)
      ensures notifications == old(notifications) + 1
      ensures js != null ==> js.items == StoreAfterSave(old(js.items), js.aes, json, Current())
    {
      isLoggedIn := true;
      this.userName := Some(userName);
      this.roles := if roles.Some? then roles.value else [];
      SaveAsync();
      NotifyStateChanged();
    }

    /**
     * `LoginWithJWTAsync(token)`. Without a runtime it returns at once. With
     * one it stores the encrypted token, then calls `decodeJWT`; when the
     * interop binding throws (`faulted`) that error escapes after the token
     * was stored and before any property changed. Otherwise the session is
     * logged in whatever the payload, persisted, and notified once.
     */
    method LoginWithJwtAsync(token: string) returns (faulted: bool)
      modifies this, js
      ensures js == null ==> !faulted && Current() == old(Current()) && notifications == old(notifications)
      ensures js != null ==>
        var decoded := InvokeDecodeJwt(token, json);
        var stored := SecureStorage.SetJwtToken(old(js.items), js.aes, token);
        if decoded.Unbindable? then
          faulted && Current() == old(Current()) && notifications == old(notifications) && js.items == stored
        else
          !faulted && Current() == JwtLoggedIn(old(Current()), token, PayloadOf(decoded)) &&
          notifications == old(notifications) + 1 &&
          js.items == StoreAfterSave(stored, js.aes, json, Current())
    {
      if js == null {
        return false;
      }
      js.items := SecureStorage.SetJwtToken(js.items, js.aes, token);
      var decoded := InvokeDecodeJwt(token, json);
      if decoded.Unbindable? {
        return true;
      }
      var payload := PayloadOf(decoded);
      jwtToken := Some(token);
      jwtPayload := payload;
      isLoggedIn := true;
      userName := Some(DisplayName(payload));
      roles := [];
      SaveAsync();
      NotifyStateChanged();
      faulted := false;
    }

    /** `LogoutAsync`: clears the session, deletes both entries, notifies once. */
    method LogoutAsync()
      modifies this, js
      ensures Current() == LoggedOut(old(Current()))
      ensures notifications == old(notifications) + 1
      ensures js != null ==> js.items == StoreAfterLogout(old(js.items))
    {
      isLoggedIn := false;
      userName := None;
      roles := [];
      jwtToken := None;
      jwtPayload := None;
      RemoveAsync();
      RemoveJwtAsync();
      NotifyStateChanged();
    }

    /**
     * `LoadAsync(js)`, which reads through the runtime it is given rather
     * than the one the session was built with: restores the record, then the
     * token, then notifies once. Storage is only read.
     */
    method LoadAsync(runtime: SecureStorage.BrowserStorage)
      modifies this
      ensures Current() == Loaded(old(Current()), runtime.items, runtime.aes, json)
      ensures notifications == old(notifications) + 1
    {
      var stored := SecureStorage.GetDecryptedItem(runtime.items, runtime.aes, StorageKey);
      if !IsNullOrEmpty(stored) {
        match json.deserialize(stored.value)
        case Parsed(dto) =>
          isLoggedIn := dto.isLoggedIn;
          userName := dto.userName;
          roles := if dto.roles.Some? then dto.roles.value else [];
        case _ =>
      }
      ghost var restored := Current();
      assert restored == RestoredFromRecord(old(Current()), stored, json);
      var token := SecureStorage.GetJwtToken(runtime.items, runtime.aes);
      if !IsNullOrEmpty(token) {
        var decoded := InvokeDecodeJwt(token.value, json);
        if decoded.Object? {
          jwtToken := token;
          jwtPayload := Some(decoded.payload);
          isLoggedIn := true;
          userName := Some(DisplayName(Some(decoded.payload)));
        }
      }
      assert Current() == RestoredFromToken(restored, token, json);
      NotifyStateChanged();
    }
  }

  // ---------------------------------------------------------------------------
  // Properties across operations

  /** The decrypted record under "authstate" is the serialised record of the saved fields, and the token entry is untouched. */
  lemma SavedRecord(store: SecureStorage.Store, aes: SecureStorage.Aes, json: Json, s: Fields)
    requires SecureStorage.Sound(aes)
    ensures var r := StoreAfterSave(store, aes, json, s);
      SecureStorage.GetDecryptedItem(r, aes, StorageKey) == Some(json.serialize(AuthStateDto(s.isLoggedIn, s.userName, Some(s.roles)))) &&
      SecureStorage.SameEntry(store, r, SecureStorage.JwtTokenKey)
  {
    SecureStorage.DecryptedAfterEncrypted(store, aes, StorageKey, json.serialize(Record(s)));
  }

  /** With no record and no token stored (or ones that cannot be read), loading changes nothing. */
  lemma LoadWithNothingUsable(s: Fields, store: SecureStorage.Store, aes: SecureStorage.Aes, json: Json)
    requires var stored := SecureStorage.GetDecryptedItem(store, aes, StorageKey);
      IsNullOrEmpty(stored) || !json.deserialize(stored.value).Parsed?
    requires var token := SecureStorage.GetJwtToken(store, aes);
      IsNullOrEmpty(token) || !InvokeDecodeJwt(token.value, json).Object?
    ensures Loaded(s, store, aes, json) == s
  {
  }

  /**
   * The record half of loading: with no usable record (missing, empty, or
   * one that does not deserialise) the fields stay as they were; with one,
   * the flag, the name and the roles (empty when null) come from it and the
   * token and payload are kept.
   */
  lemma LoadRecordHalf(s: Fields, stored: Option<string>, json: Json)
    ensures IsNullOrEmpty(stored) || !json.deserialize(stored.value).Parsed? ==> RestoredFromRecord(s, stored, json) == s
    ensures !IsNullOrEmpty(stored) && json.deserialize(stored.value).Parsed? ==>
      var dto := json.deserialize(stored.value).dto;
      var r := RestoredFromRecord(s, stored, json);
      r.isLoggedIn == dto.isLoggedIn && r.userName == dto.userName &&
      r.roles == (if dto.roles.Some? then dto.roles.value else []) &&
      r.jwtToken == s.jwtToken && r.jwtPayload == s.jwtPayload
  {
  }

  /**
   * The token half of loading: a stored token that decodes to a payload
   * forces the session logged in under the payload's display name, with that
   * token and payload, and keeps the roles the record gave; a missing, empty
   * or undecodable token leaves what the record gave.
   */
  lemma LoadTokenHalf(s: Fields, store: SecureStorage.Store, aes: SecureStorage.Aes, json: Json)
    ensures var afterRecord := RestoredFromRecord(s, SecureStorage.GetDecryptedItem(store, aes, StorageKey), json);
      var token := SecureStorage.GetJwtToken(store, aes);
      var r := Loaded(s, store, aes, json);
      (IsNullOrEmpty(token) || !InvokeDecodeJwt(token.value, json).Object? ==> r == afterRecord) &&
      (!IsNullOrEmpty(token) && InvokeDecodeJwt(token.value, json).Object? ==>
        var p := InvokeDecodeJwt(token.value, json).payload;
        r.isLoggedIn && r.jwtToken == token && r.jwtPayload == Some(p) &&
        r.userName == Some(DisplayName(Some(p))) && r.roles == afterRecord.roles)
  {
  }

  /**
   * Log in with a name and roles, then load into a fresh session over the
   * same storage with no token stored: the fresh session is logged in with
   * that name and those roles.
   */
  lemma LoginThenReload(store: SecureStorage.Store, aes: SecureStorage.Aes, json: Json,
                        s: Fields, userName: string, roles: Option<seq<string>>)
    requires SecureStorage.Sound(aes) && Sound(json)
    requires SecureStorage.JwtTokenKey !in store
    ensures var saved := StoreAfterSave(store, aes, json, LoggedIn(s, userName, roles));
      Loaded(Initial, saved, aes, json) == Initial.(isLoggedIn := true, userName := Some(userName), roles := roles.GetOr([]))
  {
    var after := LoggedIn(s, userName, roles);
    var saved := StoreAfterSave(store, aes, json, after);
    SavedRecord(store, aes, json, after);
    assert json.serialize(Record(after)) != "" && json.deserialize(json.serialize(Record(after))) == Parsed(Record(after));
    assert SecureStorage.JwtTokenKey !in saved;
  }

  /** After logging out, a session that loads from the same storage stays logged out, whatever it held. */
  lemma LogoutThenReload(store: SecureStorage.Store, aes: SecureStorage.Aes, json: Json, s: Fields)
    ensures Loaded(LoggedOut(s), StoreAfterLogout(store), aes, json) == Initial
  {
  }

  /** A token the decoder reads a payload from contains a '.', so it is not empty. */
  lemma DecodedTokenNotEmpty(token: string, json: Json)
    requires InvokeDecodeJwt(token, json).Object?
    ensures token != ""
  {
    if '.' !in token {
      SecureStorage.DecodeJwtWithoutDot(token, json.parse);
    }
  }

  /**
   * A JWT login whose token decodes to a payload survives a reload: a fresh
   * session loading from the storage it left has exactly the fields the login
   * produced.
   */
  lemma JwtLoginThenReload(store: SecureStorage.Store, aes: SecureStorage.Aes, json: Json, s: Fields, token: string)
    requires SecureStorage.Sound(aes) && Sound(json)
    requires InvokeDecodeJwt(token, json).Object?
    ensures var after := JwtLoggedIn(s, token, PayloadOf(InvokeDecodeJwt(token, json)));
      var saved := StoreAfterSave(SecureStorage.SetJwtToken(store, aes, token), aes, json, after);
      Loaded(Initial, saved, aes, json) == after
  {
    var after := JwtLoggedIn(s, token, PayloadOf(InvokeDecodeJwt(token, json)));
    var withToken := SecureStorage.SetJwtToken(store, aes, token);
    var saved := StoreAfterSave(withToken, aes, json, after);
    SavedRecord(withToken, aes, json, after);
    assert json.serialize(Record(after)) != "" && json.deserialize(json.serialize(Record(after))) == Parsed(Record(after));
    assert SecureStorage.SameEntry(withToken, saved, SecureStorage.JwtTokenKey);
    SecureStorage.JwtTokenRoundTrip(store, aes, token);
    DecodedTokenNotEmpty(token, json);
  }

  /**
   * A JWT login whose token does not decode still logs in and keeps the
   * token, but a session that loads from the storage it left is logged in
   * with no token: the token is only restored when it decodes.
   */
  lemma UndecodedJwtLoginThenReload(store: SecureStorage.Store, aes: SecureStorage.Aes, json: Json, s: Fields, token: string)
    requires SecureStorage.Sound(aes) && Sound(json)
    requires InvokeDecodeJwt(token, json).JsNull?
    ensures var after := JwtLoggedIn(s, token, None);
      var saved := StoreAfterSave(SecureStorage.SetJwtToken(store, aes, token), aes, json, after);
      var reloaded := Loaded(Initial, saved, aes, json);
      after.jwtToken == Some(token) && reloaded.isLoggedIn && reloaded.userName == Some(UnknownUser) && reloaded.jwtToken == None
  {
    var after := JwtLoggedIn(s, token, None);
    var withToken := SecureStorage.SetJwtToken(store, aes, token);
    var saved := StoreAfterSave(withToken, aes, json, after);
    SavedRecord(withToken, aes, json, after);
    assert json.serialize(Record(after)) != "" && json.deserialize(json.serialize(Record(after))) == Parsed(Record(after));
    assert SecureStorage.SameEntry(withToken, saved, SecureStorage.JwtTokenKey);
    SecureStorage.JwtTokenRoundTrip(store, aes, token);
  }
}
