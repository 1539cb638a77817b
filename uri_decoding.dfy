/**
 * The two browser steps `decodeJWT` chains after `atob`: the per-char hex
 * step that turns a binary string into percent escapes, and ECMAScript's
 * `decodeURIComponent` (the Decode abstract operation with an empty set of
 * reserved chars), which reads UTF-8 out of runs of escapes.
 */
module UriDecoding {
  import opened Wrappers
  import Utf8
  import Base64

  /** A lower-case hex digit, as `Number.prototype.toString(16)` writes it. */
  function HexDigit(d: nat): char
    requires d < 16
  {
    if d < 10 then ('0' as int + d) as char else ('a' as int + d - 10) as char
  }

  /** `n.toString(16)` for a non-negative integer: no leading zeros, "0" for zero. */
  function ToHexString(n: nat): (s: string)
    ensures 1 <= |s|
    decreases n
  {
    if n < 16 then [HexDigit(n)] else ToHexString(n / 16) + [HexDigit(n % 16)]
  }

  /** `s.slice(-2)`: the last two chars, or all of `s` when it is shorter. */
  function SliceLast2(s: string): string {
    if |s| <= 2 then s else s[|s| - 2..]
  }

  /** The mapping step of `decodeJWT`: `'%' + ('00' + c.charCodeAt(0).toString(16)).slice(-2)`. */
  function PercentEscape(c: char): string {
    "%" + SliceLast2("00" + ToHexString(c as int))
  }

  /** `s.split('').map(PercentEscape).join('')`. */
  function PercentJoin(s: string): string {
    if s == [] then [] else PercentEscape(s[0]) + PercentJoin(s[1..])
  }

  /** The value of a hex digit of either case; None for any other char. */
  function HexValue(c: char): Option<nat> {
    if '0' <= c <= '9' then Some(c as int - '0' as int)
    else if 'a' <= c <= 'f' then Some(c as int - 'a' as int + 10)
    else if 'A' <= c <= 'F' then Some(c as int - 'A' as int + 10)
    else None
  }

  /** ECMAScript's `ParseHexOctet`: the octet that two hex digits spell. */
  function ParseHexOctet(hi: char, lo: char): (r: Option<Byte>)
    ensures r.Some? <==> HexValue(hi).Some? && HexValue(lo).Some?
  {
    match (HexValue(hi), HexValue(lo))
    case (Some(h), Some(l)) => Some(h * 16 + l)
    case _ => None
  }

  /** The octets of a run of `%XX` escapes; None when a '%' or a hex digit is missing. */
  function Continuations(t: string): (r: Option<seq<Byte>>)
    requires |t| % 3 == 0
    ensures r.Some? ==> 3 * |r.value| == |t|
    decreases |t|
  {
    if t == [] then Some([])
    else if t[0] != '%' then None
    else match ParseHexOctet(t[1], t[2])
      case None => None
      case Some(b) =>
        match Continuations(t[3..])
        case None => None
        case Some(rest) => Some([b] + rest)
  }

  function Prepend(c: char, r: Option<string>): Option<string> {
    match r
    case None => None
    case Some(rest) => Some([c] + rest)
  }

  /**
   * `decodeURIComponent(s)`, or None where it throws a URIError: a '%' not
   * followed by two hex digits, a leading octet with one or more than four
   * leading one bits, too few escapes left for the sequence it announces, a
   * missing '%' before a continuation, or octets that are not a valid UTF-8
   * encoding of one code point. Chars other than '%' are copied.
   */
  function DecodeUriComponent(s: string): Option<string>
    decreases |s|
  {
    if s == [] then Some([])
    else if s[0] != '%' then Prepend(s[0], DecodeUriComponent(s[1..]))
    else if |s| < 3 then None
    else match ParseHexOctet(s[1], s[2])
      case None => None
      case Some(b) =>
        var n := Utf8.SequenceLength(b);
        if n == 0 || |s| < 3 * n then None
        else match Continuations(s[3..3 * n])
          case None => None
          case Some(tail) =>
            match Utf8.DecodeSequence([b] + tail)
            case None => None
            case Some(c) => Prepend(c, DecodeUriComponent(s[3 * n..]))
  }

  // ---------------------------------------------------------------------------
  // The hex step writes percent-encoding, which decodeURIComponent reads as UTF-8

  /** For a char of a binary string the hex step writes '%' and exactly two hex digits, high nibble first. */
  lemma PercentEscapeOfOctet(c: char)
    requires c as int < 256
    ensures PercentEscape(c) == ['%', HexDigit(c as int / 16), HexDigit(c as int % 16)]
  {
    var n := c as int;
    if n < 16 {
      assert ToHexString(n) == [HexDigit(n)];
      assert "00" + ToHexString(n) == ['0', '0', HexDigit(n)];
      assert HexDigit(n / 16) == '0';
    } else {
      assert ToHexString(n / 16) == [HexDigit(n / 16)];
      assert "00" + ToHexString(n) == ['0', '0', HexDigit(n / 16), HexDigit(n % 16)];
    }
  }

  lemma HexValueOfDigit(d: nat)
    requires d < 16
    ensures HexValue(HexDigit(d)) == Some(d)
  {
  }

  /** The two digits of an escape parse back to the octet. */
  lemma ParseEscapedOctet(b: Byte)
    ensures ParseHexOctet(HexDigit(b / 16), HexDigit(b % 16)) == Some(b)
  {
    HexValueOfDigit(b / 16);
    HexValueOfDigit(b % 16);
  }

  lemma {:induction false} PercentJoinAppend(a: string, b: string)
    ensures PercentJoin(a + b) == PercentJoin(a) + PercentJoin(b)
  {
    if a == [] {
      assert a + b == b;
    } else {
      var h := PercentEscape(a[0]);
      assert (a + b)[0] == a[0] && (a + b)[1..] == a[1..] + b;
      calc {
        PercentJoin(a + b);
        h + PercentJoin(a[1..] + b);
        { PercentJoinAppend(a[1..], b); }
        h + (PercentJoin(a[1..]) + PercentJoin(b));
        (h + PercentJoin(a[1..])) + PercentJoin(b);
      }
    }
  }

  lemma {:induction false} BinaryStringAppend(a: seq<Byte>, b: seq<Byte>)
    ensures Base64.BinaryString(a + b) == Base64.BinaryString(a) + Base64.BinaryString(b)
  {
    if a != [] {
      assert (a + b)[1..] == a[1..] + b;
      BinaryStringAppend(a[1..], b);
    }
  }

  /** The percent-encoding of an octet string: three chars per octet. */
  function Escaped(bs: seq<Byte>): string {
    PercentJoin(Base64.BinaryString(bs))
  }

  lemma EscapedOne(b: Byte)
    ensures Escaped([b]) == ['%', HexDigit(b / 16), HexDigit(b % 16)]
  {
    var one := Base64.BinaryString([b]);
    assert one == [b as char];
    assert one[1..] == [];
    PercentEscapeOfOctet(b as char);
    assert PercentJoin(one) == PercentEscape(b as char) + PercentJoin([]);
  }

  lemma {:induction false} EscapedAppend(a: seq<Byte>, b: seq<Byte>)
    ensures Escaped(a + b) == Escaped(a) + Escaped(b)
    ensures |Escaped(a)| == 3 * |a|
    decreases |a|
  {
    BinaryStringAppend(a, b);
    PercentJoinAppend(Base64.BinaryString(a), Base64.BinaryString(b));
    if a != [] {
      assert a == [a[0]] + a[1..];
      BinaryStringAppend([a[0]], a[1..]);
      PercentJoinAppend(Base64.BinaryString([a[0]]), Base64.BinaryString(a[1..]));
      EscapedOne(a[0]);
      EscapedAppend(a[1..], b);
    }
  }

  lemma {:induction false} ContinuationsOfEscaped(bs: seq<Byte>)
    ensures |Escaped(bs)| == 3 * |bs|
    ensures Continuations(Escaped(bs)) == Some(bs)
    decreases |bs|
  {
    EscapedAppend(bs, []);
    assert bs + [] == bs;
    if bs != [] {
      var t := Escaped(bs);
      assert bs == [bs[0]] + bs[1..];
      EscapedAppend([bs[0]], bs[1..]);
      EscapedOne(bs[0]);
      ParseEscapedOctet(bs[0]);
      assert t[3..] == Escaped(bs[1..]);
      ContinuationsOfEscaped(bs[1..]);
    }
  }

  /**
   * `decodeURIComponent` of the percent-encoding of any octet string is the
   * strict UTF-8 decoding of those octets: the same string when they are valid
   * UTF-8, a thrown URIError exactly when they are not.
   */
  lemma {:induction false} DecodeEscaped(bs: seq<Byte>)
    ensures DecodeUriComponent(Escaped(bs)) == Utf8.Decode(bs)
    decreases |bs|
  {
    if bs != [] {
      var s := Escaped(bs);
      var b := bs[0];
      assert bs == [b] + bs[1..];
      EscapedAppend([b], bs[1..]);
      EscapedOne(b);
      ParseEscapedOctet(b);
      assert s[0] == '%' && s[1] == HexDigit(b / 16) && s[2] == HexDigit(b % 16);
      ContinuationsOfEscaped(bs);
      var n := Utf8.SequenceLength(b);
      if n != 0 && n <= |bs| {
        assert bs == bs[..n] + bs[n..];
        EscapedAppend(bs[..n], bs[n..]);
        assert bs[..n] == [b] + bs[1..n];
        EscapedAppend([b], bs[1..n]);
        assert s[3..3 * n] == Escaped(bs[1..n]);
        ContinuationsOfEscaped(bs[1..n]);
        assert s[3 * n..] == Escaped(bs[n..]);
        DecodeEscaped(bs[n..]);
      }
    }
  }
}
