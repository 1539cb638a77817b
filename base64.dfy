/**
 * Base64 as the token producer writes it (RFC 4648: the alphabet of section 4,
 * the URL- and filename-safe alphabet of section 5, no padding, as section 2
 * of RFC 7515 asks of JWS segments) and as the browser's `atob` reads it (the
 * "forgiving-base64 decode" of the WHATWG Infra standard, which `atob` runs
 * and whose result it returns as a binary string, one char per octet).
 */
module Base64 {
  import opened Wrappers

  type Sextet = x: int | 0 <= x < 64

  /** Which of the two alphabets of RFC 4648 a spelling uses. */
  datatype Alphabet = Standard | UrlSafe

  /**
   * The char for a 6-bit value: 'A'-'Z', 'a'-'z', '0'-'9', then '+' and '/'
   * (section 4 of RFC 4648) or '-' and '_' (section 5).
   */
  function Digit(v: Sextet, alphabet: Alphabet): char {
    if v < 26 then ('A' as int + v) as char
    else if v < 52 then ('a' as int + v - 26) as char
    else if v < 62 then ('0' as int + v - 52) as char
    else if v == 62 then (if alphabet == Standard then '+' else '-')
    else (if alphabet == Standard then '/' else '_')
  }

  /** The 6-bit groups of an octet string, the last group zero-filled (section 4 of RFC 4648). */
  function Sextets(bs: seq<Byte>): (vs: seq<Sextet>)
    ensures 4 * |bs| <= 3 * |vs| <= 4 * |bs| + 2
    decreases |bs|
  {
    if |bs| == 0 then []
    else if |bs| == 1 then [bs[0] / 4, bs[0] % 4 * 16]
    else if |bs| == 2 then [bs[0] / 4, bs[0] % 4 * 16 + bs[1] / 16, bs[1] % 16 * 4]
    else [bs[0] / 4, bs[0] % 4 * 16 + bs[1] / 16, bs[1] % 16 * 4 + bs[2] / 64, bs[2] % 64] + Sextets(bs[3..])
  }

  /** The octets that a run of 6-bit groups carries; leftover bits of a final partial group are dropped. */
  function FromSextets(vs: seq<Sextet>): seq<Byte>
    requires |vs| % 4 != 1
    decreases |vs|
  {
    if |vs| == 0 then []
    else
      var v0, v1 := vs[0] as int, vs[1] as int;
      if |vs| == 2 then [v0 * 4 + v1 / 16]
      else
        var v2 := vs[2] as int;
        if |vs| == 3 then [v0 * 4 + v1 / 16, v1 % 16 * 16 + v2 / 4]
        else [v0 * 4 + v1 / 16, v1 % 16 * 16 + v2 / 4, v2 % 4 * 64 + vs[3] as int] + FromSextets(vs[4..])
  }

  function Spell(vs: seq<Sextet>, alphabet: Alphabet): (s: string)
    ensures |s| == |vs| && forall i :: 0 <= i < |vs| ==> s[i] == Digit(vs[i], alphabet)
  {
    if vs == [] then [] else [Digit(vs[0], alphabet)] + Spell(vs[1..], alphabet)
  }

  /** Base64 with the alphabet of section 4 of RFC 4648, padded with '=' to a multiple of four chars. */
  function Encode(bs: seq<Byte>): string {
    var body := Spell(Sextets(bs), Standard);
    body + (if |bs| % 3 == 1 then "==" else if |bs| % 3 == 2 then "=" else "")
  }

  /** Base64url (section 5 of RFC 4648) without padding, as a JWS compact serialisation writes each segment. */
  function UrlEncode(bs: seq<Byte>): string {
    Spell(Sextets(bs), UrlSafe)
  }

  /** ASCII whitespace as the Infra standard defines it: TAB, LF, FF, CR and SPACE. */
  predicate IsAsciiWhitespace(c: char) {
    c == '\t' || c == '\n' || c == 12 as char || c == '\r' || c == ' '
  }

  function StripAsciiWhitespace(s: string): (r: string)
    ensures forall i :: 0 <= i < |r| ==> !IsAsciiWhitespace(r[i])
  {
    if s == [] then []
    else if IsAsciiWhitespace(s[0]) then StripAsciiWhitespace(s[1..])
    else [s[0]] + StripAsciiWhitespace(s[1..])
  }

  /** When the length is a multiple of four, one or two trailing '=' are dropped. */
  function StripPadding(s: string): string {
    if |s| % 4 == 0 && 2 <= |s| && s[|s| - 2..] == "==" then s[..|s| - 2]
    else if |s| % 4 == 0 && 1 <= |s| && s[|s| - 1] == '=' then s[..|s| - 1]
    else s
  }

  /** The value of a char of the standard alphabet; None for any other char. */
  function CharValue(c: char): Option<Sextet> {
    if 'A' <= c <= 'Z' then Some(c as int - 'A' as int)
    else if 'a' <= c <= 'z' then Some(c as int - 'a' as int + 26)
    else if '0' <= c <= '9' then Some(c as int - '0' as int + 52)
    else if c == '+' then Some(62)
    else if c == '/' then Some(63)
    else None
  }

  function Values(s: string): (r: Option<seq<Sextet>>)
    ensures r.Some? ==> |r.value| == |s|
  {
    if s == [] then Some([])
    else match CharValue(s[0])
      case None => None
      case Some(v) =>
        match Values(s[1..])
        case None => None
        case Some(vs) => Some([v] + vs)
  }

  /**
   * Forgiving-base64 decode: drop ASCII whitespace, drop one or two final '='
   * when the length is a multiple of four, fail on a length of 4k+1 or on any
   * char outside the standard alphabet, else return the octets.
   */
  function ForgivingDecode(s: string): Option<seq<Byte>> {
    var data := StripPadding(StripAsciiWhitespace(s));
    if |data| % 4 == 1 then None
    else match Values(data)
      case None => None
      case Some(vs) => Some(FromSextets(vs))
  }

  /** A binary string: the char whose code is each octet. */
  function BinaryString(bs: seq<Byte>): (s: string)
    ensures |s| == |bs| && forall i :: 0 <= i < |bs| ==> s[i] as int == bs[i]
  {
    if bs == [] then [] else [bs[0] as char] + BinaryString(bs[1..])
  }

  /** `atob`: the decoded octets as a binary string, or None where `atob` throws. */
  function Atob(s: string): (r: Option<string>)
    ensures r.Some? ==> forall i :: 0 <= i < |r.value| ==> r.value[i] as int < 256
  {
    match ForgivingDecode(s)
    case None => None
    case Some(bs) => Some(BinaryString(bs))
  }

  // ---------------------------------------------------------------------------
  // Round trips

  lemma {:induction false} FromSextetsSextets(bs: seq<Byte>)
    ensures |Sextets(bs)| % 4 != 1
    ensures FromSextets(Sextets(bs)) == bs
    decreases |bs|
  {
    SextetsLength(bs);
    if 1 <= |bs| <= 2 {
      ShortRoundTrip(bs);
    } else if |bs| >= 3 {
      var vs := Sextets(bs);
      FirstGroup(bs);
      GroupDecodes(bs[0], bs[1], bs[2]);
      FromSextetsSextets(bs[3..]);
      FromSextetsAppend(vs[..4], vs[4..]);
      assert vs == vs[..4] + vs[4..];
      assert bs == bs[..3] + bs[3..];
    }
  }

  /** One or two octets come back from their sextets. */
  lemma ShortRoundTrip(bs: seq<Byte>)
    requires 1 <= |bs| <= 2
    ensures |Sextets(bs)| == |bs| + 1
    ensures FromSextets(Sextets(bs)) == bs
  {
    if |bs| == 1 {
      GroupRoundTrip(bs[0], 0, 0);
    } else {
      GroupRoundTrip(bs[0], bs[1], 0);
    }
  }

  /** The sextets of three or more octets: four for the first three, then those of the rest. */
  lemma FirstGroup(bs: seq<Byte>)
    requires |bs| >= 3
    ensures Sextets(bs)[..4] == [bs[0] / 4, bs[0] % 4 * 16 + bs[1] / 16, bs[1] % 16 * 4 + bs[2] / 64, bs[2] % 64]
    ensures Sextets(bs)[4..] == Sextets(bs[3..])
  {
  }

  /** The four sextets of three octets decode to those octets. */
  lemma GroupDecodes(b0: Byte, b1: Byte, b2: Byte)
    ensures FromSextets([b0 / 4, b0 % 4 * 16 + b1 / 16, b1 % 16 * 4 + b2 / 64, b2 % 64]) == [b0, b1, b2]
  {
    GroupRoundTrip(b0, b1, b2);
  }

  /** A complete group of four sextets and what follows decode separately. */
  lemma FromSextetsAppend(group: seq<Sextet>, rest: seq<Sextet>)
    requires |group| == 4 && |rest| % 4 != 1
    ensures |group + rest| % 4 != 1
    ensures FromSextets(group + rest) == FromSextets(group) + FromSextets(rest)
  {
    assert (group + rest)[4..] == rest;
    assert group[4..] == [];
  }

  /** A byte string of length 3k + r is spelled by 4k, 4k + 2 or 4k + 3 sextets. */
  lemma {:induction false} SextetsLength(bs: seq<Byte>)
    ensures |Sextets(bs)| % 4 != 1
    decreases |bs|
  {
    if |bs| > 3 {
      SextetsLength(bs[3..]);
    }
  }

  /** The padded spelling of any octet string has a length that is a multiple of four. */
  lemma {:induction false} PaddedLength(bs: seq<Byte>)
    ensures (|Sextets(bs)| + (if |bs| % 3 == 1 then 2 else if |bs| % 3 == 2 then 1 else 0)) % 4 == 0
    decreases |bs|
  {
    if |bs| > 3 {
      var rest := bs[3..];
      PaddedLength(rest);
      assert |Sextets(bs)| == 4 + |Sextets(rest)|;
      Shift(|rest|, 3);
      Shift(|Sextets(rest)| + (if |rest| % 3 == 1 then 2 else if |rest| % 3 == 2 then 1 else 0), 4);
    }
  }

  /** Adding the modulus leaves the remainder unchanged. */
  lemma Shift(x: nat, d: int)
    requires d == 3 || d == 4
    ensures (x + d) % d == x % d
  {
  }

  /** The four 6-bit groups of three octets carry those octets back. */
  lemma GroupRoundTrip(b0: Byte, b1: Byte, b2: Byte)
    ensures b0 / 4 * 4 + (b0 % 4 * 16 + b1 / 16) / 16 == b0
    ensures (b0 % 4 * 16 + b1 / 16) % 16 * 16 + (b1 % 16 * 4 + b2 / 64) / 4 == b1
    ensures (b1 % 16 * 4 + b2 / 64) % 4 * 64 + b2 % 64 == b2
  {
    Carry(b0 % 4, b1 / 16, 16);
    Carry(b1 % 16, b2 / 64, 4);
  }

  /** Splitting `q * d + r` by `d` gives back `q` and `r`. */
  lemma Carry(q: nat, r: nat, d: int)
    requires d == 4 || d == 16
    requires r < d
    ensures (q * d + r) / d == q && (q * d + r) % d == r
  {
  }

  lemma {:induction false} ValuesOfSpelling(vs: seq<Sextet>)
    ensures Values(Spell(vs, Standard)) == Some(vs)
  {
    if vs != [] {
      var s := Spell(vs, Standard);
      CharValueOfDigit(vs[0]);
      assert s[1..] == Spell(vs[1..], Standard);
      ValuesOfSpelling(vs[1..]);
      assert [vs[0]] + vs[1..] == vs;
    }
  }

  lemma {:induction false} StripAsciiWhitespaceNone(s: string)
    requires forall i :: 0 <= i < |s| ==> !IsAsciiWhitespace(s[i])
    ensures StripAsciiWhitespace(s) == s
  {
    if s != [] {
      StripAsciiWhitespaceNone(s[1..]);
      assert [s[0]] + s[1..] == s;
    }
  }

  lemma CharValueOfDigit(v: Sextet)
    ensures CharValue(Digit(v, Standard)) == Some(v)
  {
  }

  /** Every char of a standard spelling is a digit of the standard alphabet, with the value spelled. */
  lemma SpellingValues(vs: seq<Sextet>)
    ensures forall i :: 0 <= i < |vs| ==> CharValue(Spell(vs, Standard)[i]) == Some(vs[i])
  {
    var s := Spell(vs, Standard);
    forall i | 0 <= i < |vs| ensures CharValue(s[i]) == Some(vs[i]) {
      CharValueOfDigit(vs[i]);
    }
  }

  /** A string with no ASCII whitespace and no '=' reaches the decoding step unchanged. */
  lemma PlainDataUnchanged(s: string)
    requires forall i :: 0 <= i < |s| ==> CharValue(s[i]).Some?
    ensures StripPadding(StripAsciiWhitespace(s)) == s
  {
    forall i | 0 <= i < |s| ensures !IsAsciiWhitespace(s[i]) {
      DigitNotSpecial(s[i]);
    }
    StripAsciiWhitespaceNone(s);
    if s != [] {
      DigitNotSpecial(s[|s| - 1]);
    }
    NoPaddingKept(s);
  }

  /** A char of the standard alphabet is neither ASCII whitespace nor '='. */
  lemma DigitNotSpecial(c: char)
    requires CharValue(c).Some?
    ensures !IsAsciiWhitespace(c) && c != '='
  {
  }

  lemma NoPaddingKept(s: string)
    requires s == [] || s[|s| - 1] != '='
    ensures StripPadding(s) == s
  {
    if |s| >= 2 {
      assert s[|s| - 2..][1] == s[|s| - 1];
    }
  }

  /** `atob` reads back the unpadded standard-alphabet spelling of any octet string. */
  lemma DecodeUnpadded(bs: seq<Byte>)
    ensures ForgivingDecode(Spell(Sextets(bs), Standard)) == Some(bs)
  {
    var vs := Sextets(bs);
    var s := Spell(vs, Standard);
    SpellingValues(vs);
    PlainDataUnchanged(s);
    FromSextetsSextets(bs);
    ValuesOfSpelling(vs);
  }

  /** The '=' padding after a spelling of the right length is dropped, and nothing else is. */
  lemma StripPaddedSpelling(body: string, pad: string)
    requires forall i :: 0 <= i < |body| ==> CharValue(body[i]).Some?
    requires pad == "=" || pad == "=="
    requires (|body| + |pad|) % 4 == 0
    ensures StripPadding(StripAsciiWhitespace(body + pad)) == body
  {
    PaddedHasNoWhitespace(body, pad);
    if pad == "==" {
      TwoPadsStripped(body);
    } else {
      OnePadStripped(body);
    }
  }

  lemma PaddedHasNoWhitespace(body: string, pad: string)
    requires forall i :: 0 <= i < |body| ==> CharValue(body[i]).Some?
    requires pad == "=" || pad == "=="
    ensures StripAsciiWhitespace(body + pad) == body + pad
  {
    var s := body + pad;
    forall i | 0 <= i < |s| ensures !IsAsciiWhitespace(s[i]) {
      if i < |body| {
        assert s[i] == body[i];
        DigitNotSpecial(body[i]);
      }
    }
    StripAsciiWhitespaceNone(s);
  }

  lemma TwoPadsStripped(body: string)
    requires (|body| + 2) % 4 == 0
    ensures StripPadding(body + "==") == body
  {
    var s := body + "==";
    assert s[|s| - 2..] == "==";
    assert s[..|s| - 2] == body;
  }

  lemma OnePadStripped(body: string)
    requires forall i :: 0 <= i < |body| ==> CharValue(body[i]).Some?
    requires (|body| + 1) % 4 == 0
    ensures StripPadding(body + "=") == body
  {
    var s := body + "=";
    assert s[|s| - 2] == body[|body| - 1];
    DigitNotSpecial(body[|body| - 1]);
    assert s[|s| - 2..][0] == s[|s| - 2];
    assert s[..|s| - 1] == body;
  }

  /** `atob` reads back the padded base64 of section 4 of RFC 4648. */
  lemma DecodeEncoded(bs: seq<Byte>)
    ensures ForgivingDecode(Encode(bs)) == Some(bs)
  {
    var vs := Sextets(bs);
    var body := Spell(vs, Standard);
    var pad := if |bs| % 3 == 1 then "==" else if |bs| % 3 == 2 then "=" else "";
    assert Encode(bs) == body + pad;
    if pad == "" {
      assert body + pad == body;
      DecodeUnpadded(bs);
    } else {
      SpellingValues(vs);
      PaddedLength(bs);
      StripPaddedSpelling(body, pad);
      FromSextetsSextets(bs);
      ValuesOfSpelling(vs);
    }
  }

  /** Every char of a base64url spelling comes from the URL alphabet; in particular none is a '.'. */
  lemma UrlEncodeHasNoDot(bs: seq<Byte>)
    ensures '.' !in UrlEncode(bs)
  {
    var vs := Sextets(bs);
    var s := UrlEncode(bs);
    forall i | 0 <= i < |s| ensures s[i] != '.' {
      assert s[i] == Digit(vs[i], UrlSafe);
    }
  }
}
