/**
 * UTF-8 (RFC 3629) over Dafny strings. A Dafny `char` is a Unicode scalar
 * value, so one `char` is one code point; the browser's UTF-16 code units are
 * not modelled.
 *
 * `DecodeSequence` is exactly the check ECMAScript's `decodeURIComponent`
 * applies to the octets of one escaped code point ("a valid UTF-8 encoding of
 * a Unicode code point"): no overlong forms, no surrogates, nothing above
 * U+10FFFF.
 */
module Utf8 {
  import opened Wrappers

  /** The UTF-8 encoding of one scalar value. */
  function EncodeChar(c: char): (bs: seq<Byte>)
    ensures 1 <= |bs| <= 4
  {
    var n := c as int;
    if n < 0x80 then [n]
    else if n < 0x800 then [0xC0 + n / 64, 0x80 + n % 64]
    else if n < 0x1_0000 then [0xE0 + n / 4096, 0x80 + n / 64 % 64, 0x80 + n % 64]
    else [0xF0 + n / 0x4_0000, 0x80 + n / 4096 % 64, 0x80 + n / 64 % 64, 0x80 + n % 64]
  }

  /** The UTF-8 encoding of a string. */
  function Encode(s: string): seq<Byte>
  {
    if s == [] then [] else EncodeChar(s[0]) + Encode(s[1..])
  }

  /**
   * The length of the sequence that a leading octet announces (the number of
   * its leading one bits, or 1 for an ASCII octet); 0 for a continuation octet
   * or an octet with more than four leading ones.
   */
  function SequenceLength(b: Byte): (n: nat)
    ensures n <= 4
    ensures n == 1 <==> b < 0x80
    ensures n == 0 <==> (0x80 <= b < 0xC0 || 0xF8 <= b)
  {
    if b < 0x80 then 1
    else if b < 0xC0 then 0
    else if b < 0xE0 then 2
    else if b < 0xF0 then 3
    else if b < 0xF8 then 4
    else 0
  }

  predicate IsContinuation(b: Byte) {
    0x80 <= b < 0xC0
  }

  predicate IsScalar(cp: int) {
    0 <= cp < 0xD800 || 0xE000 <= cp < 0x11_0000
  }

  /** The value carried by a multi-octet sequence: six bits per continuation octet. */
  function CodePoint(bs: seq<Byte>): int
    requires 2 <= |bs| <= 4
  {
    var b0, b1 := bs[0] as int, bs[1] as int;
    if |bs| == 2 then (b0 - 0xC0) * 64 + (b1 - 0x80)
    else if |bs| == 3 then ((b0 - 0xE0) * 64 + (b1 - 0x80)) * 64 + (bs[2] as int - 0x80)
    else (((b0 - 0xF0) * 64 + (b1 - 0x80)) * 64 + (bs[2] as int - 0x80)) * 64 + (bs[3] as int - 0x80)
  }

  /** The smallest code point a sequence of `n` octets may carry (shorter forms are overlong). */
  function LeastCodePoint(n: nat): int {
    if n == 2 then 0x80 else if n == 3 then 0x800 else 0x1_0000
  }

  /**
   * The code point that the octets of one sequence encode, or None when they
   * are not a valid encoding of a code point.
   */
  function DecodeSequence(bs: seq<Byte>): (r: Option<char>)
    requires 1 <= |bs| && |bs| == SequenceLength(bs[0])
  {
    if |bs| == 1 then Some(bs[0] as char)
    else if exists i :: 1 <= i < |bs| && !IsContinuation(bs[i]) then None
    else
      var cp := CodePoint(bs);
      if cp < LeastCodePoint(|bs|) || !IsScalar(cp) then None else Some(cp as char)
  }

  /** Strict UTF-8 decoding of an octet string: None on any ill-formed sequence. */
  function Decode(bs: seq<Byte>): Option<string>
    decreases |bs|
  {
    if bs == [] then Some([])
    else
      var n := SequenceLength(bs[0]);
      if n == 0 || |bs| < n then None
      else match DecodeSequence(bs[..n])
        case None => None
        case Some(c) =>
          match Decode(bs[n..])
          case None => None
          case Some(rest) => Some([c] + rest)
  }

  lemma EncodeTwo(n: int)
    requires 0x80 <= n < 0x800
    ensures var bs: seq<Byte> := [0xC0 + n / 64, 0x80 + n % 64]; CodePoint(bs) == n
  {
    assert (n / 64) * 64 + n % 64 == n;
  }

  lemma EncodeThree(n: int)
    requires 0x800 <= n < 0x1_0000
    ensures var bs: seq<Byte> := [0xE0 + n / 4096, 0x80 + n / 64 % 64, 0x80 + n % 64]; CodePoint(bs) == n
  {
    var q := n / 64;
    assert q * 64 + n % 64 == n;
    assert (q / 64) * 64 + q % 64 == q;
    assert n / 4096 == q / 64;
  }

  lemma EncodeFour(n: int)
    requires 0x1_0000 <= n < 0x11_0000
    ensures var bs: seq<Byte> := [0xF0 + n / 0x4_0000, 0x80 + n / 4096 % 64, 0x80 + n / 64 % 64, 0x80 + n % 64];
      CodePoint(bs) == n
  {
    var q := n / 64;
    var q2 := q / 64;
    assert q * 64 + n % 64 == n;
    assert q2 * 64 + q % 64 == q;
    assert (q2 / 64) * 64 + q2 % 64 == q2;
    assert n / 4096 == q2;
    assert n / 0x4_0000 == q2 / 64;
  }

  /** The octets of a char form one valid sequence that decodes back to that char. */
  lemma EncodeCharDecodes(c: char)
    ensures var bs := EncodeChar(c);
      SequenceLength(bs[0]) == |bs| && DecodeSequence(bs) == Some(c)
  {
    var n := c as int;
    if 0x80 <= n < 0x800 {
      DecodesTwo(c);
    } else if 0x800 <= n < 0x1_0000 {
      DecodesThree(c);
    } else if 0x1_0000 <= n {
      DecodesFour(c);
    }
  }

  lemma DecodesTwo(c: char)
    requires 0x80 <= c as int < 0x800
    ensures var bs := EncodeChar(c);
      SequenceLength(bs[0]) == |bs| && DecodeSequence(bs) == Some(c)
  {
    EncodeTwo(c as int);
  }

  lemma DecodesThree(c: char)
    requires 0x800 <= c as int < 0x1_0000
    ensures var bs := EncodeChar(c);
      SequenceLength(bs[0]) == |bs| && DecodeSequence(bs) == Some(c)
  {
    EncodeThree(c as int);
  }

  lemma DecodesFour(c: char)
    requires 0x1_0000 <= c as int
    ensures var bs := EncodeChar(c);
      SequenceLength(bs[0]) == |bs| && DecodeSequence(bs) == Some(c)
  {
    EncodeFour(c as int);
  }

  /** A valid multi-octet sequence is the encoding of the code point it carries. */
  lemma CodePointCanonical(bs: seq<Byte>)
    requires 2 <= |bs| && |bs| == SequenceLength(bs[0])
    requires forall i :: 1 <= i < |bs| ==> IsContinuation(bs[i])
    requires LeastCodePoint(|bs|) <= CodePoint(bs) && IsScalar(CodePoint(bs))
    ensures EncodeChar(CodePoint(bs) as char) == bs
  {
    assert IsContinuation(bs[1]);
    if |bs| == 2 {
      CanonicalTwo(bs);
    } else if |bs| == 3 {
      assert IsContinuation(bs[2]);
      CanonicalThree(bs);
    } else {
      assert IsContinuation(bs[2]) && IsContinuation(bs[3]);
      CanonicalFour(bs);
    }
  }

  lemma CanonicalTwo(bs: seq<Byte>)
    requires |bs| == 2 && 0xC0 <= bs[0] < 0xE0 && IsContinuation(bs[1])
    requires 0x80 <= CodePoint(bs)
    ensures EncodeChar(CodePoint(bs) as char) == bs
  {
    var n := CodePoint(bs);
    assert n / 64 == bs[0] as int - 0xC0 && n % 64 == bs[1] as int - 0x80;
  }

  lemma CanonicalThree(bs: seq<Byte>)
    requires |bs| == 3 && 0xE0 <= bs[0] < 0xF0 && IsContinuation(bs[1]) && IsContinuation(bs[2])
    requires 0x800 <= CodePoint(bs) && IsScalar(CodePoint(bs))
    ensures EncodeChar(CodePoint(bs) as char) == bs
  {
    var n := CodePoint(bs);
    var q := (bs[0] as int - 0xE0) * 64 + (bs[1] as int - 0x80);
    assert n / 64 == q && n % 64 == bs[2] as int - 0x80;
    assert q / 64 == bs[0] as int - 0xE0 && q % 64 == bs[1] as int - 0x80;
    assert n / 4096 == q / 64;
  }

  lemma CanonicalFour(bs: seq<Byte>)
    requires |bs| == 4 && 0xF0 <= bs[0] < 0xF8 && IsContinuation(bs[1]) && IsContinuation(bs[2]) && IsContinuation(bs[3])
    requires 0x1_0000 <= CodePoint(bs) && IsScalar(CodePoint(bs))
    ensures EncodeChar(CodePoint(bs) as char) == bs
  {
    var n := CodePoint(bs);
    var q2 := (bs[0] as int - 0xF0) * 64 + (bs[1] as int - 0x80);
    var q := q2 * 64 + (bs[2] as int - 0x80);
    assert n / 64 == q && n % 64 == bs[3] as int - 0x80;
    assert q / 64 == q2 && q % 64 == bs[2] as int - 0x80;
    assert q2 / 64 == bs[0] as int - 0xF0 && q2 % 64 == bs[1] as int - 0x80;
    assert n / 4096 == q2;
    assert n / 0x4_0000 == q2 / 64;
  }

  /** A valid sequence is the encoding of the char it decodes to: the decoder accepts only canonical forms. */
  lemma DecodeSequenceCanonical(bs: seq<Byte>, c: char)
    requires 1 <= |bs| && |bs| == SequenceLength(bs[0])
    requires DecodeSequence(bs) == Some(c)
    ensures EncodeChar(c) == bs
  {
    if |bs| > 1 {
      CodePointCanonical(bs);
    }
  }

  /** Decoding the encoding of any string gives the string back. */
  lemma {:induction false} DecodeEncode(s: string)
    ensures Decode(Encode(s)) == Some(s)
  {
    if s != [] {
      var head := EncodeChar(s[0]);
      var bs := Encode(s);
      assert bs == head + Encode(s[1..]);
      EncodeCharDecodes(s[0]);
      assert bs[0] == head[0];
      assert bs[..|head|] == head;
      assert bs[|head|..] == Encode(s[1..]);
      DecodeEncode(s[1..]);
      assert [s[0]] + s[1..] == s;
    }
  }

  /** Conversely, every octet string the decoder accepts is the encoding of what it returns. */
  lemma {:induction false} EncodeDecode(bs: seq<Byte>, s: string)
    requires Decode(bs) == Some(s)
    ensures Encode(s) == bs
    decreases |bs|
  {
    if bs != [] {
      var n := SequenceLength(bs[0]);
      DecodeStep(bs, s);
      var c := DecodeSequence(bs[..n]).value;
      var rest := Decode(bs[n..]).value;
      DecodeSequenceCanonical(bs[..n], c);
      EncodeDecode(bs[n..], rest);
      EncodeStep(bs, n, c, rest);
    }
  }

  /** A char whose encoding starts an octet string, then a string encoding the remainder, encode the whole. */
  lemma EncodeStep(bs: seq<Byte>, n: nat, c: char, rest: string)
    requires n <= |bs| && EncodeChar(c) == bs[..n] && Encode(rest) == bs[n..]
    ensures Encode([c] + rest) == bs
  {
    assert ([c] + rest)[1..] == rest;
    assert bs == bs[..n] + bs[n..];
  }

  /** One step of a successful decoding: a valid first sequence, then a decodable rest. */
  lemma DecodeStep(bs: seq<Byte>, s: string)
    requires bs != [] && Decode(bs) == Some(s)
    ensures var n := SequenceLength(bs[0]);
      1 <= n <= |bs| && DecodeSequence(bs[..n]).Some? && Decode(bs[n..]).Some? &&
      s == [DecodeSequence(bs[..n]).value] + Decode(bs[n..]).value
  {
  }
}
