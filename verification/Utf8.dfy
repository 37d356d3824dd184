// Text transcoding as the platform's TextEncoder and TextDecoder do it, on strings of
// Unicode scalar values. TextDecoder drops one leading byte order mark.
module Utf8 {

  type byte = b: int | 0 <= b < 256

  const BOM: seq<byte> := [0xEF, 0xBB, 0xBF]
  const REPLACEMENT: char := '\U{FFFD}'

  function EncodeChar(ch: char): (r: seq<byte>)
    ensures 1 <= |r| <= 4
  {
    var c := ch as int;
    if c < 0x80 then [c]
    else if c < 0x800 then [0xC0 + c / 64, 0x80 + c % 64]
    else if c < 0x10000 then [0xE0 + c / 4096, 0x80 + c / 64 % 64, 0x80 + c % 64]
    else [0xF0 + c / 262144, 0x80 + c / 4096 % 64, 0x80 + c / 64 % 64, 0x80 + c % 64]
  }

  function Encode(s: string): seq<byte> {
    if s == "" then [] else EncodeChar(s[0]) + Encode(s[1..])
  }

  // Length in UTF-16 code units, what `str.length` is.
  function Units(s: string): nat {
    if s == "" then 0 else (if s[0] as int < 0x10000 then 1 else 2) + Units(s[1..])
  }

  predicate Continues(b: seq<byte>, i: nat) {
    i < |b| && 0x80 <= b[i] < 0xC0
  }

  // The scalar value at the front, with the length of its encoding. Overlong forms,
  // surrogates and values past U+10FFFF are malformed: one byte becomes U+FFFD.
  function DecodeChar(b: seq<byte>): (r: (char, nat))
    requires b != []
    ensures 1 <= r.1 <= |b|
  {
    if b[0] < 0x80 then (b[0] as char, 1)
    else if 0xC2 <= b[0] < 0xE0 && Continues(b, 1) then
      (((b[0] as int - 0xC0) * 64 + (b[1] as int - 0x80)) as char, 2)
    else if 0xE0 <= b[0] < 0xF0 && Continues(b, 1) && Continues(b, 2) then
      var c := (b[0] as int - 0xE0) * 4096 + (b[1] as int - 0x80) * 64 + (b[2] as int - 0x80);
      if c >= 0x800 && !(0xD800 <= c < 0xE000) then (c as char, 3) else (REPLACEMENT, 1)
    else if 0xF0 <= b[0] < 0xF5 && Continues(b, 1) && Continues(b, 2) && Continues(b, 3) then
      var c := (b[0] as int - 0xF0) * 262144 + (b[1] as int - 0x80) * 4096
               + (b[2] as int - 0x80) * 64 + (b[3] as int - 0x80);
      if 0x10000 <= c < 0x110000 then (c as char, 4) else (REPLACEMENT, 1)
    else (REPLACEMENT, 1)
  }

  function DecodeAll(b: seq<byte>): string
    decreases |b|
  {
    if b == [] then "" else var (c, n) := DecodeChar(b); [c] + DecodeAll(b[n..])
  }

  // `TextDecoder.decode`.
  function Decode(b: seq<byte>): string {
    DecodeAll(if BOM <= b then b[3..] else b)
  }

  function StripBom(s: string): string {
    if s != "" && s[0] == '\U{FEFF}' then s[1..] else s
  }

  // Base-64 digits put back together.
  lemma Base64Digits(n: nat)
    ensures n / 4096 == n / 64 / 64 && n / 262144 == n / 4096 / 64
    ensures n == (n / 64) * 64 + n % 64
    ensures n == (n / 4096) * 4096 + (n / 64 % 64) * 64 + n % 64
    ensures n == (n / 262144) * 262144 + (n / 4096 % 64) * 4096 + (n / 64 % 64) * 64 + n % 64
  {
  }

  lemma CharRoundTrip(c: char, rest: seq<byte>)
    ensures DecodeChar(EncodeChar(c) + rest) == (c, |EncodeChar(c)|)
  {
    var n := c as int;
    Base64Digits(n);
    var e := EncodeChar(c);
    var b := e + rest;
    assert forall i :: 0 <= i < |e| ==> b[i] == e[i];
    if n >= 0x10000 {
      assert |e| == 4 && b[0] == 0xF0 + n / 262144;
      assert b[1] == 0x80 + n / 4096 % 64 && b[2] == 0x80 + n / 64 % 64 && b[3] == 0x80 + n % 64;
    }
  }

  lemma {:induction false} AllRoundTrip(s: string)
    ensures DecodeAll(Encode(s)) == s
  {
    if s != "" {
      CharRoundTrip(s[0], Encode(s[1..]));
      AllRoundTrip(s[1..]);
      assert Encode(s)[|EncodeChar(s[0])|..] == Encode(s[1..]);
    }
  }

  // Decoding what was encoded gives the string back, less a leading byte order mark.
  lemma RoundTrip(s: string)
    ensures Decode(Encode(s)) == StripBom(s)
  {
    AllRoundTrip(s);
    if s != "" {
      CharRoundTrip(s[0], Encode(s[1..]));
      assert BOM <= Encode(s) <==> s[0] == '\U{FEFF}';
      if s[0] == '\U{FEFF}' {
        assert Encode(s)[3..] == Encode(s[1..]);
        AllRoundTrip(s[1..]);
      }
    }
  }

  // Three bytes per code unit is always room enough, and so the four reserved are.
  lemma {:induction false} EncodedLength(s: string)
    ensures |s| <= |Encode(s)| <= 3 * Units(s) <= 4 * Units(s)
  {
    if s != "" {
      EncodedLength(s[1..]);
    }
  }

  // On ASCII bytes the character-by-character loop is the decoder.
  lemma {:induction false} AsciiDecode(b: seq<byte>)
    requires forall i :: 0 <= i < |b| ==> b[i] < 0x80
    ensures Decode(b) == seq(|b|, i requires 0 <= i < |b| => b[i] as char)
    decreases |b|
  {
    if b != [] {
      AsciiDecode(b[1..]);
      assert !(BOM <= b) && !(BOM <= b[1..]);
    }
  }
}
