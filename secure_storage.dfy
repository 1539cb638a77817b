/**
 * Blazor/wwwroot/js/secureStorage.js: encrypted entries in the browser's
 * `localStorage`, the stored JWT, and the client-side JWT payload decoder.
 *
 * `localStorage` is a `Store` (string keys to string values); each exported
 * setter or remover is a function from the old store to the new one, and each
 * getter a function of the store. `BrowserStorage` is the one shared, mutable
 * store that every caller in the page sees.
 */
module SecureStorage {
  import opened Wrappers
  import Utf8
  import Base64
  import UriDecoding

  /** The passphrase every encrypt and decrypt call of the module uses. */
  const Key: string := "HejH2Hemmelighed"

  /** The `localStorage` key under which the token is kept. */
  const JwtTokenKey: string := "jwt_token"

  type Store = map<string, string>

  /**
   * CryptoJS AES with a passphrase: `encrypt(v, key)` stands for
   * `CryptoJS.AES.encrypt(v, key).toString()` and `decrypt(c, key)` for
   * `CryptoJS.AES.decrypt(c, key).toString(CryptoJS.enc.Utf8)`.
   */
  datatype Aes = Aes(encrypt: (string, string) -> string, decrypt: (string, string) -> string)

  /**
   * All the model relies on about AES: a ciphertext is never the empty string
   * (CryptoJS writes a non-empty OpenSSL-format string) and decrypting with
   * the same passphrase gives the plaintext back.
   */
  ghost predicate Sound(aes: Aes) {
    forall v, k :: aes.encrypt(v, k) != "" && aes.decrypt(aes.encrypt(v, k), k) == v
  }

  /** `a` and `b` hold the same entry (or none) under `k`. */
  predicate SameEntry(a: Store, b: Store, k: string) {
    (k in a <==> k in b) && (k in a ==> a[k] == b[k])
  }

  // ---------------------------------------------------------------------------
  // The plain localStorage wrappers

  /** `setItem(key, value)`. */
  function SetItem(store: Store, key: string, value: string): (r: Store)
    ensures key in r && r[key] == value
    ensures forall k :: k != key ==> SameEntry(store, r, k)
  {
    store[key := value]
  }

  /** `getItem(key)`: the stored string, or null. */
  function GetItem(store: Store, key: string): (r: Option<string>)
    ensures r.Some? <==> key in store
    ensures r.Some? ==> r.value == store[key]
  {
    if key in store then Some(store[key]) else None
  }

  /** `removeItem(key)`. */
  function RemoveItem(store: Store, key: string): (r: Store)
    ensures key !in r
    ensures forall k :: k != key ==> SameEntry(store, r, k)
  {
    store - {key}
  }

  // ---------------------------------------------------------------------------
  // Encrypted entries

  /** `setEncryptedItem(storageKey, value)`: the AES ciphertext of `value` under `storageKey`. */
  function SetEncryptedItem(store: Store, aes: Aes, storageKey: string, value: string): (r: Store)
    ensures storageKey in r && r[storageKey] == aes.encrypt(value, Key)
    ensures forall k :: k != storageKey ==> SameEntry(store, r, k)
  {
    SetItem(store, storageKey, aes.encrypt(value, Key))
  }

  /**
   * `getDecryptedItem(storageKey)`: null when the entry is missing or empty
   * (`!encrypted`), else the decryption of the entry.
   */
  function GetDecryptedItem(store: Store, aes: Aes, storageKey: string): (r: Option<string>)
    ensures r.None? <==> storageKey !in store || store[storageKey] == ""
  {
    match GetItem(store, storageKey)
    case None => None
    case Some(encrypted) =>
      if encrypted == "" then None else Some(aes.decrypt(encrypted, Key))
  }

  /** `setJWTToken(token)`: the same encryption as `setEncryptedItem`, under the fixed 'jwt_token' key. */
  function SetJwtToken(store: Store, aes: Aes, token: string): (r: Store)
    ensures JwtTokenKey in r
    ensures forall k :: k != JwtTokenKey ==> SameEntry(store, r, k)
  {
    SetEncryptedItem(store, aes, JwtTokenKey, token)
  }

  /** `getJWTToken()`: the body of `getDecryptedItem`, for the 'jwt_token' entry. */
  function GetJwtToken(store: Store, aes: Aes): (r: Option<string>)
    ensures r.None? <==> JwtTokenKey !in store || store[JwtTokenKey] == ""
  {
    GetDecryptedItem(store, aes, JwtTokenKey)
  }

  /** `removeJWTToken()`. */
  function RemoveJwtToken(store: Store): (r: Store)
    ensures JwtTokenKey !in r
    ensures forall k :: k != JwtTokenKey ==> SameEntry(store, r, k)
  {
    RemoveItem(store, JwtTokenKey)
  }

  /** What `getDecryptedItem` reads back under a key is what `setEncryptedItem` last put there. */
  lemma DecryptedAfterEncrypted(store: Store, aes: Aes, storageKey: string, value: string)
    requires Sound(aes)
    ensures GetDecryptedItem(SetEncryptedItem(store, aes, storageKey, value), aes, storageKey) == Some(value)
  {
    var r := SetEncryptedItem(store, aes, storageKey, value);
    assert r[storageKey] == aes.encrypt(value, Key);
    assert aes.encrypt(value, Key) != "" && aes.decrypt(aes.encrypt(value, Key), Key) == value;
  }

  /** Writing or removing one key does not change what `getDecryptedItem` reads under another. */
  lemma DecryptedElsewhereUnchanged(store: Store, aes: Aes, key: string, other: string, value: string)
    requires key != other
    ensures GetDecryptedItem(SetEncryptedItem(store, aes, key, value), aes, other) == GetDecryptedItem(store, aes, other)
    ensures GetDecryptedItem(RemoveItem(store, key), aes, other) == GetDecryptedItem(store, aes, other)
  {
    assert SameEntry(store, SetEncryptedItem(store, aes, key, value), other);
    assert SameEntry(store, RemoveItem(store, key), other);
  }

  /** `getJWTToken()` returns the token `setJWTToken` stored, and null once `removeJWTToken()` ran. */
  lemma JwtTokenRoundTrip(store: Store, aes: Aes, token: string)
    requires Sound(aes)
    ensures GetJwtToken(SetJwtToken(store, aes, token), aes) == Some(token)
    ensures GetJwtToken(RemoveJwtToken(store), aes) == None
  {
    DecryptedAfterEncrypted(store, aes, JwtTokenKey, token);
  }

  /**
   * The shared `localStorage` of the page together with the CryptoJS
   * instance the module calls; `AuthState` reads and writes `items`.
   */
  class BrowserStorage {
    var items: Store
    const aes: Aes

    constructor (items: Store, aes: Aes)
      ensures this.items == items && this.aes == aes
    {
      this.items := items;
      this.aes := aes;
    }
  }

  // ---------------------------------------------------------------------------
  // decodeJWT

  /** `s.split(sep)`: the runs between separators, in order; one part when there is no separator. */
  function Split(s: string, sep: char): (parts: seq<string>)
    ensures 1 <= |parts|
  {
    if s == [] then [""]
    else
      var rest := Split(s[1..], sep);
      if s[0] == sep then [""] + rest else [[s[0]] + rest[0]] + rest[1..]
  }

  /** `s.replace(/from/g, to)` for single chars. */
  function ReplaceAll(s: string, from: char, to: char): (r: string)
    ensures |r| == |s|
    ensures forall i :: 0 <= i < |s| ==> r[i] == if s[i] == from then to else s[i]
  {
    if s == [] then [] else [if s[0] == from then to else s[0]] + ReplaceAll(s[1..], from, to)
  }

  /**
   * `base64Url.replace(/-/g, '+').replace(/_/g, '/')`: the two chars in which
   * the alphabet of section 5 of RFC 4648 differs from that of section 4 are
   * mapped to their section-4 counterparts, and every other char is kept.
   */
  function UrlToStandard(s: string): (r: string)
    ensures |r| == |s|
    ensures forall i :: 0 <= i < |s| ==>
      r[i] == (if s[i] == '-' then '+' else if s[i] == '_' then '/' else s[i])
  {
    ReplaceAll(ReplaceAll(s, '-', '+'), '_', '/')
  }

  /**
   * `decodeJWT(token)`: the segment at index 1 of `token.split('.')`,
   * base64-decoded by `atob`, percent-escaped char by char, decoded by
   * `decodeURIComponent`, and parsed by `JSON.parse` (`parse`, an arbitrary
   * partial function). Every failure (no '.', so `split('.')[1]` is
   * undefined; invalid base64; invalid UTF-8; invalid JSON) is caught and
   * gives null.
   */
  function DecodeJwt<P>(token: string, parse: string -> Option<P>): Option<P>
  {
    var parts := Split(token, '.');
    if |parts| < 2 then None
    else match Base64.Atob(UrlToStandard(parts[1]))
      case None => None
      case Some(binary) =>
        match UriDecoding.DecodeUriComponent(UriDecoding.PercentJoin(binary))
        case None => None
        case Some(json) => parse(json)
  }

  // ---------------------------------------------------------------------------
  // What decodeJWT reads

  /** A token starting with a dot-free segment and a '.' splits there. */
  lemma {:induction false} SplitAtFirstDot(h: string, t: string)
    requires '.' !in h
    ensures Split(h + "." + t, '.') == [h] + Split(t, '.')
  {
    if h == [] {
      assert h + "." + t == ['.'] + t;
      assert (['.'] + t)[1..] == t;
    } else {
      assert (h + "." + t)[1..] == h[1..] + "." + t;
      SplitAtFirstDot(h[1..], t);
      assert [h[0]] + h[1..] == h;
    }
  }

  /** The first part of a split is the text before the first separator. */
  lemma {:induction false} SplitDotFree(s: string)
    requires '.' !in s
    ensures Split(s, '.') == [s]
  {
    if s != [] {
      SplitDotFree(s[1..]);
      assert [s[0]] + s[1..] == s;
    }
  }

  /** A token without any '.' decodes to null: index 1 of its split does not exist. */
  lemma DecodeJwtWithoutDot<P>(token: string, parse: string -> Option<P>)
    requires '.' !in token
    ensures DecodeJwt(token, parse) == None
  {
    SplitDotFree(token);
  }

  /**
   * Only the segment after the first '.' is read: the header, the number of
   * further segments and the signature are never looked at.
   */
  lemma DecodeJwtReadsOnlyPayload<P>(h: string, h': string, p: string, s: string, parse: string -> Option<P>)
    requires '.' !in h && '.' !in h' && '.' !in p
    ensures DecodeJwt(h + "." + p + "." + s, parse) == DecodeJwt(h' + "." + p, parse)
  {
    SplitAtFirstDot(h, p + "." + s);
    assert h + "." + p + "." + s == h + "." + (p + "." + s);
    SplitAtFirstDot(p, s);
    SplitAtFirstDot(h', p);
    SplitDotFree(p);
  }

  /**
   * decodeJWT against a reference definition that bypasses the browser's
   * percent-encoding detour: the payload segment's octets per forgiving
   * base64, strictly UTF-8 decoded, then parsed. So the result is null
   * exactly when the token has no '.', the segment is not base64 (after the
   * alphabet mapping), the octets are not UTF-8 or `parse` rejects the text.
   */
  lemma DecodeJwtCharacterised<P>(token: string, parse: string -> Option<P>)
    ensures DecodeJwt(token, parse) ==
      var parts := Split(token, '.');
      if |parts| < 2 then None
      else match Base64.ForgivingDecode(UrlToStandard(parts[1]))
        case None => None
        case Some(bs) =>
          match Utf8.Decode(bs)
          case None => None
          case Some(json) => parse(json)
  {
    var parts := Split(token, '.');
    if |parts| >= 2 {
      match Base64.ForgivingDecode(UrlToStandard(parts[1]))
      case None =>
      case Some(bs) =>
        UriDecoding.DecodeEscaped(bs);
    }
  }

  /** Mapping the URL alphabet back turns a base64url spelling into the standard one. */
  lemma UrlSpellingToStandard(bs: seq<Byte>)
    ensures UrlToStandard(Base64.UrlEncode(bs)) == Base64.Spell(Base64.Sextets(bs), Base64.Standard)
  {
    var vs := Base64.Sextets(bs);
    var u := Base64.UrlEncode(bs);
    var r := UrlToStandard(u);
    var s := Base64.Spell(vs, Base64.Standard);
    forall i | 0 <= i < |r| ensures r[i] == s[i] {
      assert u[i] == Base64.Digit(vs[i], Base64.UrlSafe);
    }
  }

  /**
   * The round trip the token's producer and this decoder complete: a payload
   * written as base64url of its UTF-8 (section 7.1 of RFC 7515) after a
   * dot-free header is read back as exactly that text and handed to `parse`,
   * whatever follows it.
   */
  lemma DecodeJwtOfEncodedPayload<P>(h: string, json: string, s: string, parse: string -> Option<P>)
    requires '.' !in h
    ensures DecodeJwt(h + "." + Base64.UrlEncode(Utf8.Encode(json)) + "." + s, parse) == parse(json)
    ensures DecodeJwt(h + "." + Base64.UrlEncode(Utf8.Encode(json)), parse) == parse(json)
  {
    var bs := Utf8.Encode(json);
    var p := Base64.UrlEncode(bs);
    Base64.UrlEncodeHasNoDot(bs);
    DecodeJwtReadsOnlyPayload(h, h, p, s, parse);
    SplitAtFirstDot(h, p);
    SplitDotFree(p);
    UrlSpellingToStandard(bs);
    Base64.DecodeUnpadded(bs);
    DecodeJwtCharacterised(h + "." + p, parse);
    Utf8.DecodeEncode(json);
  }
}
