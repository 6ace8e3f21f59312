/**
 * UTF-8 as RFC 3629 defines it: the check that `String::from_utf8` and
 * `OsStr::to_str` make before handing out text. A byte sequence decodes
 * exactly when it is the encoding of some string, and then of one string only.
 */
module Utf8Codec {
  import opened Wrappers

  newtype byte = x: int | 0 <= x < 256

  type Bytes = seq<byte>

  /** A continuation byte, 10xxxxxx. */
  predicate IsContinuation(b: byte) {
    0x80 <= b < 0xC0
  }

  /** Whether n is a Unicode scalar value, the values a `char` holds. */
  predicate IsScalar(n: int) {
    (0 <= n < 0xD800) || (0xE000 <= n < 0x11_0000)
  }

  /** The continuation byte 10xxxxxx carrying the low six bits of m. */
  function Continuation(m: nat): (r: byte)
    ensures IsContinuation(r)
  {
    (0x80 + m % 64) as byte
  }

  /** The shortest UTF-8 form of one scalar value. */
  function EncodeChar(c: char): (r: Bytes)
    ensures 1 <= |r| <= 4
    ensures |r| == 1 <==> c as int < 0x80
    ensures r[0] < 0x80 || 0xC2 <= r[0] < 0xF5
    ensures forall k :: 1 <= k < |r| ==> IsContinuation(r[k])
  {
    var n := c as int;
    if n < 0x80 then
      [n as byte]
    else if n < 0x800 then
      [(0xC0 + n / 64) as byte, Continuation(n)]
    else if n < 0x1_0000 then
      [(0xE0 + n / 64 / 64) as byte, Continuation(n / 64), Continuation(n)]
    else
      [(0xF0 + n / 64 / 64 / 64) as byte, Continuation(n / 64 / 64), Continuation(n / 64), Continuation(n)]
  }

  /** The UTF-8 form of a string: its characters' encodings, in order. */
  function Encode(s: string): (r: Bytes)
    ensures |s| <= |r| <= 4 * |s|
  {
    if s == [] then [] else EncodeChar(s[0]) + Encode(s[1..])
  }

  /**
   * The scalar value encoded at the head of `b` and the number of bytes it
   * takes, or None when the head is not a well-formed UTF-8 sequence
   * (a stray continuation byte, an overlong form, a surrogate, a value above
   * U+10FFFF, or a sequence cut short).
   */
  function DecodeChar(b: Bytes): (r: Option<(char, nat)>)
    requires |b| > 0
    ensures r.Some? ==> 1 <= r.value.1 <= |b| && r.value.1 <= 4
  {
    var b0 := b[0] as int;
    if b0 < 0x80 then
      Some((b0 as char, 1))
    else if 0xC2 <= b0 < 0xE0 then
      if |b| >= 2 && IsContinuation(b[1]) then
        Some((((b0 - 0xC0) * 64 + (b[1] as int - 0x80)) as char, 2))
      else None
    else if 0xE0 <= b0 < 0xF0 then
      var lo := if b0 == 0xE0 then 0xA0 else 0x80;
      var hi := if b0 == 0xED then 0xA0 else 0xC0;
      if |b| >= 3 && lo <= b[1] as int < hi && IsContinuation(b[2]) then
        Some((((b0 - 0xE0) * 4096 + (b[1] as int - 0x80) * 64 + (b[2] as int - 0x80)) as char, 3))
      else None
    else if 0xF0 <= b0 < 0xF5 then
      var lo := if b0 == 0xF0 then 0x90 else 0x80;
      var hi := if b0 == 0xF4 then 0x90 else 0xC0;
      if |b| >= 4 && lo <= b[1] as int < hi && IsContinuation(b[2]) && IsContinuation(b[3]) then
        Some((((b0 - 0xF0) * 262144 + (b[1] as int - 0x80) * 4096
               + (b[2] as int - 0x80) * 64 + (b[3] as int - 0x80)) as char, 4))
      else None
    else
      None
  }

  /** Decoding of a whole byte sequence: the string it encodes, or None if it is not UTF-8. */
  function Decode(b: Bytes): (r: Option<string>)
    ensures b == [] ==> r == Some([])
    ensures r.Some? ==> |r.value| <= |b| <= 4 * |r.value|
    decreases |b|
  {
    if b == [] then Some([])
    else
      match DecodeChar(b)
      case None => None
      case Some((c, n)) =>
        match Decode(b[n..])
        case None => None
        case Some(s) => Some([c] + s)
  }

  /** Decoding the encoding of one character gives that character back and consumes exactly its bytes. */
  lemma DecodeEncodeChar(c: char, rest: Bytes)
    ensures DecodeChar(EncodeChar(c) + rest) == Some((c, |EncodeChar(c)|))
  {
    var n := c as int;
    var b := EncodeChar(c) + rest;
    var q1 := n / 64;
    var q2 := q1 / 64;
    var q3 := q2 / 64;
    assert n == q1 * 64 + n % 64;
    assert q1 == q2 * 64 + q1 % 64;
    assert q2 == q3 * 64 + q2 % 64;
    if n < 0x80 {
    } else if n < 0x800 {
      assert b[0] as int == 0xC0 + q1 && b[1] as int == 0x80 + n % 64;
    } else if n < 0x1_0000 {
      assert b[0] as int == 0xE0 + q2;
      assert b[1] as int == 0x80 + q1 % 64;
      assert b[2] as int == 0x80 + n % 64;
    } else {
      assert b[0] as int == 0xF0 + q3;
      assert b[1] as int == 0x80 + q2 % 64;
      assert b[2] as int == 0x80 + q1 % 64;
      assert b[3] as int == 0x80 + n % 64;
    }
  }

  /** A character decoded from the head of `b` re-encodes to exactly the bytes it was read from. */
  lemma EncodeDecodeChar(b: Bytes)
    requires |b| > 0 && DecodeChar(b).Some?
    ensures EncodeChar(DecodeChar(b).value.0) == b[..DecodeChar(b).value.1]
  {
    var (c, k) := DecodeChar(b).value;
    var n := c as int;
    var b0 := b[0] as int;
    if b0 < 0x80 {
    } else if b0 < 0xE0 {
      var x1 := b[1] as int - 0x80;
      assert n == (b0 - 0xC0) * 64 + x1;
      assert n / 64 == b0 - 0xC0 && n % 64 == x1;
    } else if b0 < 0xF0 {
      var x1, x2 := b[1] as int - 0x80, b[2] as int - 0x80;
      var q1 := (b0 - 0xE0) * 64 + x1;
      assert n == q1 * 64 + x2;
      assert n / 64 == q1 && n % 64 == x2;
      assert q1 / 64 == b0 - 0xE0 && q1 % 64 == x1;
    } else {
      var x1, x2, x3 := b[1] as int - 0x80, b[2] as int - 0x80, b[3] as int - 0x80;
      var q2 := (b0 - 0xF0) * 64 + x1;
      var q1 := q2 * 64 + x2;
      assert n == q1 * 64 + x3;
      assert n / 64 == q1 && n % 64 == x3;
      assert q1 / 64 == q2 && q1 % 64 == x2;
      assert q2 / 64 == b0 - 0xF0 && q2 % 64 == x1;
    }
  }

  /** Every string survives a round trip through its encoding. */
  lemma {:induction false} DecodeEncode(s: string)
    ensures Decode(Encode(s)) == Some(s)
  {
    if s != [] {
      var e := EncodeChar(s[0]);
      var rest := Encode(s[1..]);
      DecodeEncodeChar(s[0], rest);
      assert (e + rest)[|e|..] == rest;
      DecodeEncode(s[1..]);
      assert [s[0]] + s[1..] == s;
    }
  }

  /** Whatever decodes is the encoding of what it decodes to: decoding loses nothing. */
  lemma {:induction false} EncodeDecode(b: Bytes)
    requires Decode(b).Some?
    ensures Encode(Decode(b).value) == b
    decreases |b|
  {
    if b != [] {
      var (c, k) := DecodeChar(b).value;
      var tail := Decode(b[k..]).value;
      var s := [c] + tail;
      assert Decode(b) == Some(s);
      EncodeDecodeChar(b);
      EncodeDecode(b[k..]);
      assert s[0] == c && s[1..] == tail;
      calc {
        Encode(s);
        EncodeChar(c) + Encode(tail);
        b[..k] + b[k..];
        b;
      }
    }
  }

  /** The bytes are rejected exactly when no string encodes to them. */
  lemma DecodeFailsIffNotEncoding(b: Bytes)
    ensures Decode(b).None? <==> forall s: string :: Encode(s) != b
  {
    if Decode(b).Some? {
      EncodeDecode(b);
    } else {
      forall s: string ensures Encode(s) != b {
        DecodeEncode(s);
      }
    }
  }

  /** Two byte sequences that decode to the same string are the same bytes. */
  lemma DecodeInjective(a: Bytes, b: Bytes)
    requires Decode(a).Some? && Decode(a) == Decode(b)
    ensures a == b
  {
    EncodeDecode(a);
    EncodeDecode(b);
  }
}
