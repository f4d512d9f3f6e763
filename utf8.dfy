/**
 * `String.getBytes()` with the platform default charset, which on Android is
 * always UTF-8. A Dafny `char` is a Unicode scalar value, so every character
 * has exactly one encoding of one to four bytes.
 */
module Utf8 {
  import opened CanBase

  /** Continuation byte `10xxxxxx` carrying the six bits `v`. */
  function Cont(v: int): byte
    requires 0 <= v < 64
  {
    (0x80 + v) as byte
  }

  predicate IsCont(b: byte) {
    0x80 <= b < 0xC0
  }

  /** The UTF-8 encoding of one scalar value. */
  function EncodeChar(c: char): (bs: seq<byte>)
    ensures 1 <= |bs| <= 4
    ensures (|bs| == 1) <==> (c as int) < 0x80
  {
    var cp := c as int;
    if cp < 0x80 then [cp as byte]
    else if cp < 0x800 then [(0xC0 + cp / 64) as byte, Cont(cp % 64)]
    else if cp < 0x1_0000 then
      [(0xE0 + cp / 4096) as byte, Cont(cp / 64 % 64), Cont(cp % 64)]
    else
      [(0xF0 + cp / 262144) as byte, Cont(cp / 4096 % 64), Cont(cp / 64 % 64), Cont(cp % 64)]
  }

  /** `s.getBytes()`: the encodings of the characters, in order. */
  function Encode(s: string): (bs: seq<byte>)
  {
    if |s| == 0 then [] else EncodeChar(s[0]) + Encode(s[1..])
  }

  /** A scalar value: a code point that is not a surrogate. */
  predicate IsScalar(v: int) {
    0 <= v < 0xD800 || 0xE000 <= v < 0x11_0000
  }

  /**
   * Reads one character from the front of `bs`, returning it with the
   * number of bytes it took; `None` when the front is not a well-formed
   * UTF-8 sequence.
   */
  function DecodeChar(bs: seq<byte>): (r: Option<(char, nat)>)
    ensures r.Some? ==> 1 <= r.value.1 <= |bs|
  {
    if |bs| == 0 then None
    else
      var b0 := bs[0] as int;
      if b0 < 0x80 then Some((b0 as char, 1))
      else if 0xC2 <= b0 < 0xE0 && |bs| >= 2 && IsCont(bs[1]) then
        var v := (b0 - 0xC0) * 64 + (bs[1] as int - 0x80);
        Some((v as char, 2))
      else if 0xE0 <= b0 < 0xF0 && |bs| >= 3 && IsCont(bs[1]) && IsCont(bs[2]) then
        var v := (b0 - 0xE0) * 4096 + (bs[1] as int - 0x80) * 64 + (bs[2] as int - 0x80);
        if 0x800 <= v && IsScalar(v) then Some((v as char, 3)) else None
      else if 0xF0 <= b0 < 0xF5 && |bs| >= 4 && IsCont(bs[1]) && IsCont(bs[2]) && IsCont(bs[3]) then
        var v := (b0 - 0xF0) * 262144 + (bs[1] as int - 0x80) * 4096
                 + (bs[2] as int - 0x80) * 64 + (bs[3] as int - 0x80);
        if 0x1_0000 <= v && IsScalar(v) then Some((v as char, 4)) else None
      else None
  }

  /** Decodes a whole byte sequence; `None` if any part is malformed. */
  function Decode(bs: seq<byte>): Option<string>
    decreases |bs|
  {
    if |bs| == 0 then Some([])
    else match DecodeChar(bs)
      case None => None
      case Some((c, n)) =>
        match Decode(bs[n..])
        case None => None
        case Some(rest) => Some([c] + rest)
  }

  lemma DecodeEncodeChar(c: char, rest: seq<byte>)
    ensures DecodeChar(EncodeChar(c) + rest) == Some((c, |EncodeChar(c)|))
  {
    var cp := c as int;
    var bs := EncodeChar(c) + rest;
    if cp < 0x80 {
    } else if cp < 0x800 {
      assert (cp / 64) * 64 + cp % 64 == cp;
    } else if cp < 0x1_0000 {
      assert (cp / 4096) * 4096 + (cp / 64 % 64) * 64 + cp % 64 == cp;
    } else {
      assert (cp / 262144) * 262144 + (cp / 4096 % 64) * 4096 + (cp / 64 % 64) * 64 + cp % 64 == cp;
    }
  }

  /** Every string's bytes decode back to the same string: no two texts give the same payload. */
  lemma {:induction false} DecodeEncode(s: string)
    ensures Decode(Encode(s)) == Some(s)
  {
    if |s| > 0 {
      var e := EncodeChar(s[0]);
      var bs := Encode(s);
      assert bs == e + Encode(s[1..]);
      DecodeEncodeChar(s[0], Encode(s[1..]));
      assert bs[|e|..] == Encode(s[1..]);
      DecodeEncode(s[1..]);
      assert [s[0]] + s[1..] == s;
    }
  }

  /** The payload is never shorter than the text and is empty exactly when the text is. */
  lemma {:induction false} EncodeLength(s: string)
    ensures |s| <= |Encode(s)| <= 4 * |s|
    ensures Encode(s) == [] <==> s == []
  {
    if |s| > 0 {
      EncodeLength(s[1..]);
    }
  }

  predicate IsAscii(s: string) {
    forall i :: 0 <= i < |s| ==> (s[i] as int) < 0x80
  }

  /** A text of ASCII characters is sent as its character codes, one byte each. */
  lemma {:induction false} EncodeAscii(s: string)
    requires IsAscii(s)
    ensures |Encode(s)| == |s|
    ensures forall i :: 0 <= i < |s| ==> Encode(s)[i] as int == s[i] as int
  {
    if |s| > 0 {
      EncodeAscii(s[1..]);
      assert Encode(s) == [s[0] as int as byte] + Encode(s[1..]);
    }
  }
}
