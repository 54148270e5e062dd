/** UTF-8, over Unicode scalar values. */
module Utf8 {
  import opened Prelude
  import opened Content

  function EncodeChar(c: char): (bytes: Bytes)
    ensures 1 <= |bytes| <= 4
  {
    var n := c as int;
    if n < 0x80 then [n]
    else if n < 0x800 then [0xC0 + n / 64, 0x80 + n % 64]
    else if n < 0x10000 then [0xE0 + n / 4096, 0x80 + n / 64 % 64, 0x80 + n % 64]
    else [0xF0 + n / 262144, 0x80 + n / 4096 % 64, 0x80 + n / 64 % 64, 0x80 + n % 64]
  }

  function Encode(s: string): Bytes {
    if s == [] then [] else EncodeChar(s[0]) + Encode(s[1..])
  }

  predicate IsScalar(n: int) {
    0 <= n < 0xD800 || 0xE000 <= n < 0x110000
  }

  /** How many bytes a sequence with this first byte takes; 0 for a byte that
      starts none. */
  function LengthFrom(first: Byte): nat {
    if first < 0x80 then 1
    else if 0xC0 <= first < 0xE0 then 2
    else if 0xE0 <= first < 0xF0 then 3
    else if 0xF0 <= first < 0xF8 then 4
    else 0
  }

  function ScalarOf(b: Bytes): int
    requires 1 <= |b| <= 4
  {
    var lead: int := b[0];
    if |b| == 1 then lead
    else if |b| == 2 then 64 * (lead - 0xC0) + Continuation(b[1])
    else if |b| == 3 then 4096 * (lead - 0xE0) + 64 * Continuation(b[1]) + Continuation(b[2])
    else 262144 * (lead - 0xF0) + 4096 * Continuation(b[1]) + 64 * Continuation(b[2]) + Continuation(b[3])
  }

  function Continuation(b: int): int {
    b - 0x80
  }

  /** The first character and the bytes behind it; overlong forms, surrogates and
      stray bytes are refused. */
  function DecodeChar(bytes: Bytes): Option<(char, Bytes)> {
    if bytes == [] then None
    else
      var n := LengthFrom(bytes[0]);
      if n == 0 || |bytes| < n then None
      else
        var scalar := ScalarOf(bytes[..n]);
        if !IsScalar(scalar) then None
        else if EncodeChar(scalar as char) != bytes[..n] then None
        else Some((scalar as char, bytes[n..]))
  }

  function Decode(bytes: Bytes): Option<string>
    decreases |bytes|
  {
    if bytes == [] then Some("")
    else
      match DecodeChar(bytes)
      case None => None
      case Some((c, rest)) =>
        if |rest| >= |bytes| then None
        else
          match Decode(rest)
          case None => None
          case Some(s) => Some([c] + s)
  }

  lemma Digits64(n: nat)
    ensures n % 64 == n - 64 * (n / 64)
    ensures n / 64 % 64 == n / 64 - 64 * (n / 4096)
    ensures n / 4096 % 64 == n / 4096 - 64 * (n / 262144)
  {
    assert n / 64 / 64 == n / 4096;
    assert n / 4096 / 64 == n / 262144;
  }

  lemma ScalarOfEncoded(c: char)
    ensures ScalarOf(EncodeChar(c)) == c as int && LengthFrom(EncodeChar(c)[0]) == |EncodeChar(c)|
  {
    var n: int := c as int;
    var b := EncodeChar(c);
    Digits64(n);
    if n >= 0x10000 {
      assert |b| == 4;
      var lead: int := b[0];
      assert lead == 0xF0 + n / 262144;
    } else if n >= 0x800 {
      assert |b| == 3;
      var lead: int := b[0];
      assert lead == 0xE0 + n / 4096;
    } else if n >= 0x80 {
      assert |b| == 2;
    }
  }

  lemma DecodesFirst(c: char, rest: Bytes)
    ensures DecodeChar(EncodeChar(c) + rest) == Some((c, rest))
  {
    var bytes := EncodeChar(c) + rest;
    var n := |EncodeChar(c)|;
    ScalarOfEncoded(c);
    assert bytes[..n] == EncodeChar(c) && bytes[n..] == rest;
    assert bytes[0] == EncodeChar(c)[0];
  }

  lemma {:induction false} RoundTrips(s: string)
    ensures Decode(Encode(s)) == Some(s)
  {
    if s != [] {
      DecodesFirst(s[0], Encode(s[1..]));
      RoundTrips(s[1..]);
      assert [s[0]] + s[1..] == s;
    }
  }

  lemma {:induction false} EncodesDecoded(bytes: Bytes)
    ensures Decode(bytes).Some? ==> Encode(Decode(bytes).value) == bytes
    decreases |bytes|
  {
    if bytes != [] && Decode(bytes).Some? {
      var c, rest := DecodeChar(bytes).value.0, DecodeChar(bytes).value.1;
      EncodesDecoded(rest);
      var s := Decode(rest).value;
      assert ([c] + s)[1..] == s;
      assert bytes == bytes[..LengthFrom(bytes[0])] + rest;
    }
  }

  /** Bytes decode to a string if and only if they are its encoding. */
  lemma DecodesExactly(bytes: Bytes, s: string)
    ensures Decode(bytes) == Some(s) <==> bytes == Encode(s)
  {
    RoundTrips(s);
    EncodesDecoded(bytes);
  }

  /** The six bits of a continuation byte. */
  predicate Continues(b: Byte, bits: int) {
    0 <= bits < 64 && b == 0x80 + bits
  }

  /** `bytes` have the scalar value `n`, in its shortest form: section 3 of
      RFC 3629. */
  ghost predicate HasValue(bytes: Bytes, n: int) {
    match |bytes|
    case 1 => n == bytes[0] <= 0x7F
    case 2 => 0x80 <= n <= 0x7FF && bytes[0] == 0xC0 + n / 0x40 && Continues(bytes[1], n % 0x40)
    case 3 =>
      && 0x800 <= n <= 0xFFFF && bytes[0] == 0xE0 + n / 0x1000
      && Continues(bytes[1], n % 0x1000 / 0x40) && Continues(bytes[2], n % 0x40)
    case 4 =>
      && 0x10000 <= n <= 0x10FFFF && bytes[0] == 0xF0 + n / 0x40000
      && Continues(bytes[1], n % 0x40000 / 0x1000) && Continues(bytes[2], n % 0x1000 / 0x40)
      && Continues(bytes[3], n % 0x40)
    case _ => false
  }

  lemma EncodedCharMeans(c: char)
    ensures HasValue(EncodeChar(c), c as int)
  {
    Digits64(c as int);
  }
}
