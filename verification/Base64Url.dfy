/** Base64 with the URL-safe alphabet and without padding: section 5 of
    RFC 4648. */
module Base64Url {
  import opened Prelude
  import opened Content

  function Symbol(n: nat): char
    requires n < 64
  {
    if n < 26 then ('A' as int + n) as char
    else if n < 52 then ('a' as int + (n - 26)) as char
    else if n < 62 then ('0' as int + (n - 52)) as char
    else if n == 62 then '-'
    else '_'
  }

  function ValueOf(c: char): (v: Option<nat>)
    ensures v.Some? ==> v.value < 64 && Symbol(v.value) == c
  {
    if 'A' <= c <= 'Z' then Some(c as int - 'A' as int)
    else if 'a' <= c <= 'z' then Some(c as int - 'a' as int + 26)
    else if '0' <= c <= '9' then Some(c as int - '0' as int + 52)
    else if c == '-' then Some(62)
    else if c == '_' then Some(63)
    else None
  }

  /** The four symbols of three bytes; fewer bytes use the first two or three. */
  function Symbols(a: int, b: int, c: int): string
    requires 0 <= a < 256 && 0 <= b < 256 && 0 <= c < 256
  {
    [Symbol(a / 4), Symbol(a % 4 * 16 + b / 16), Symbol(b % 16 * 4 + c / 64), Symbol(c % 64)]
  }

  function Encode(bytes: Bytes): string {
    if bytes == [] then ""
    else if |bytes| == 1 then Symbols(bytes[0], 0, 0)[..2]
    else if |bytes| == 2 then Symbols(bytes[0], bytes[1], 0)[..3]
    else Symbols(bytes[0], bytes[1], bytes[2]) + Encode(bytes[3..])
  }

  /** The three bytes of four values. */
  function Triple(p: nat, q: nat, r: nat, s: nat): Bytes
    requires p < 64 && q < 64 && r < 64 && s < 64
  {
    [p * 4 + q / 16, q % 16 * 16 + r / 4, r % 4 * 64 + s]
  }

  predicate AllKnown(text: string) {
    forall i :: 0 <= i < |text| ==> ValueOf(text[i]).Some?
  }

  /** The bytes of four symbols. */
  function TripleOf(text: string): (t: Bytes)
    requires |text| == 4 && AllKnown(text)
    ensures |t| == 3
  {
    Triple(ValueOf(text[0]).value, ValueOf(text[1]).value, ValueOf(text[2]).value, ValueOf(text[3]).value)
  }

  /** Decodes up to four symbols as if zeros followed them; bits that no byte
      uses must be zero. */
  function DecodeLast(text: string): Option<Bytes>
    requires 0 < |text| < 4
  {
    if |text| == 1 || !AllKnown(text) then None
    else if |text| == 2 then
      var t := TripleOf(text + "AA");
      if t[1] == 0 then Some(t[..1]) else None
    else
      var t := TripleOf(text + "A");
      if t[2] == 0 then Some(t[..2]) else None
  }

  /** Refuses a lone symbol, unknown symbols, and bits that no byte uses. */
  function Decode(text: string): Option<Bytes> {
    if text == "" then Some([])
    else if |text| < 4 then DecodeLast(text)
    else if !AllKnown(text[..4]) then None
    else
      match Decode(text[4..])
      case None => None
      case Some(rest) => Some(TripleOf(text[..4]) + rest)
  }

  lemma SymbolHasValue(n: nat)
    requires n < 64
    ensures ValueOf(Symbol(n)) == Some(n)
  {
  }

  lemma GroupArithmetic(x: nat, y: nat, z: nat)
    requires x < 256 && y < 256 && z < 256
    ensures
      var p, q, r, s := x / 4, x % 4 * 16 + y / 16, y % 16 * 4 + z / 64, z % 64;
      p * 4 + q / 16 == x && q % 16 * 16 + r / 4 == y && r % 4 * 64 + s == z
  {
  }

  lemma ValueArithmetic(p: nat, q: nat, r: nat, s: nat)
    requires p < 64 && q < 64 && r < 64 && s < 64
    ensures
      var x, y, z := p * 4 + q / 16, q % 16 * 16 + r / 4, r % 4 * 64 + s;
      x / 4 == p && x % 4 * 16 + y / 16 == q && y % 16 * 4 + z / 64 == r && z % 64 == s
  {
  }

  /** Three bytes survive their four symbols. */
  lemma SymbolsReadBack(a: Byte, b: Byte, c: Byte)
    ensures AllKnown(Symbols(a, b, c)) && TripleOf(Symbols(a, b, c)) == [a, b, c]
  {
    var x: int, y: int, z: int := a, b, c;
    GroupArithmetic(x, y, z);
    SymbolHasValue(x / 4);
    SymbolHasValue(x % 4 * 16 + y / 16);
    SymbolHasValue(y % 16 * 4 + z / 64);
    SymbolHasValue(z % 64);
  }

  /** Four symbols survive their three bytes. */
  lemma TripleWritesBack(text: string)
    requires |text| == 4 && AllKnown(text)
    ensures Symbols(TripleOf(text)[0], TripleOf(text)[1], TripleOf(text)[2]) == text
  {
    var p, q, r, s := ValueOf(text[0]).value, ValueOf(text[1]).value, ValueOf(text[2]).value, ValueOf(text[3]).value;
    var x: int, y: int, z: int := p * 4 + q / 16, q % 16 * 16 + r / 4, r % 4 * 64 + s;
    ValueArithmetic(p, q, r, s);
    assert TripleOf(text) == [x, y, z];
    assert Symbols(x, y, z) == [Symbol(p), Symbol(q), Symbol(r), Symbol(s)] == text;
  }

  lemma LastReadsBack(text: string, bytes: Bytes)
    requires |bytes| == 3 && 2 <= |text| < 4 && bytes[|text| - 1] == 0
    requires
      var all := text + if |text| == 2 then "AA" else "A";
      AllKnown(all) && TripleOf(all) == bytes
    ensures Decode(text) == Some(bytes[..|text| - 1])
  {
    var all := text + if |text| == 2 then "AA" else "A";
    assert forall i :: 0 <= i < |text| ==> text[i] == all[i];
    assert AllKnown(text);
  }

  lemma OneByteReadsBack(a: Byte)
    ensures Decode(Symbols(a, 0, 0)[..2]) == Some([a])
  {
    SymbolsReadBack(a, 0, 0);
    assert Symbols(a, 0, 0)[..2] + "AA" == Symbols(a, 0, 0);
    LastReadsBack(Symbols(a, 0, 0)[..2], [a, 0, 0]);
    assert [a, 0, 0][..1] == [a];
  }

  lemma TwoBytesReadBack(a: Byte, b: Byte)
    ensures Decode(Symbols(a, b, 0)[..3]) == Some([a, b])
  {
    SymbolsReadBack(a, b, 0);
    assert Symbols(a, b, 0)[..3] + "A" == Symbols(a, b, 0);
    LastReadsBack(Symbols(a, b, 0)[..3], [a, b, 0]);
    assert [a, b, 0][..2] == [a, b];
  }

  lemma ThreeBytesReadBack(a: Byte, b: Byte, c: Byte, text: string)
    requires Decode(text).Some?
    ensures Decode(Symbols(a, b, c) + text) == Some([a, b, c] + Decode(text).value)
  {
    SymbolsReadBack(a, b, c);
    assert (Symbols(a, b, c) + text)[..4] == Symbols(a, b, c) && (Symbols(a, b, c) + text)[4..] == text;
  }

  lemma {:induction false} DecodesEncoded(bytes: Bytes)
    ensures Decode(Encode(bytes)) == Some(bytes)
  {
    if |bytes| == 1 {
      OneByteReadsBack(bytes[0]);
      assert bytes == [bytes[0]];
    } else if |bytes| == 2 {
      TwoBytesReadBack(bytes[0], bytes[1]);
      assert bytes == [bytes[0], bytes[1]];
    } else if |bytes| > 2 {
      var rest := bytes[3..];
      DecodesEncoded(rest);
      ThreeBytesReadBack(bytes[0], bytes[1], bytes[2], Encode(rest));
      assert bytes == [bytes[0], bytes[1], bytes[2]] + rest;
    }
  }

  lemma LastWritesBack(text: string)
    requires 0 < |text| < 4 && DecodeLast(text).Some?
    ensures Encode(DecodeLast(text).value) == text
  {
    var all := text + if |text| == 2 then "AA" else "A";
    TripleWritesBack(all);
    assert all[..|text|] == text;
  }

  lemma FourWriteBack(four: string, rest: Bytes)
    requires |four| == 4 && AllKnown(four)
    ensures Encode(TripleOf(four) + rest) == four + Encode(rest)
  {
    TripleWritesBack(four);
    assert (TripleOf(four) + rest)[3..] == rest;
  }

  /** Only the canonical text of some bytes decodes to them. */
  lemma {:induction false} EncodesDecoded(text: string)
    ensures Decode(text).Some? ==> Encode(Decode(text).value) == text
  {
    if Decode(text).Some? {
      if 0 < |text| < 4 {
        LastWritesBack(text);
      } else if |text| >= 4 {
        EncodesDecoded(text[4..]);
        FourWriteBack(text[..4], Decode(text[4..]).value);
        assert text == text[..4] + text[4..];
      }
    }
  }

  /** A text decodes to bytes if and only if it is their encoding. */
  lemma DecodesExactly(text: string, bytes: Bytes)
    ensures Decode(text) == Some(bytes) <==> text == Encode(bytes)
  {
    DecodesEncoded(bytes);
    EncodesDecoded(text);
  }

  // ----- RFC 4648, table 2 and section 4 ------------------------------------

  const UPPER := "ABCDEFGHIJKLMNOPQRSTUVWXYZ"
  const LOWER := "abcdefghijklmnopqrstuvwxyz"
  const DIGITS := "0123456789"

  lemma SymbolIsTabled(n: nat)
    requires n < 64
    ensures Symbol(n) ==
      if n < 26 then UPPER[n] else if n < 52 then LOWER[n - 26] else if n < 62 then DIGITS[n - 52] else "-_"[n - 62]
    ensures ValueOf(Symbol(n)) == Some(n)
  {
  }

  /** The six bits of the symbol at `j`, and zero bits behind the end. */
  function BitsAt(text: string, j: nat): nat {
    if j < |text| && ValueOf(text[j]).Some? then ValueOf(text[j]).value else 0
  }

  function ByteAt(bytes: Bytes, j: nat): nat {
    if j < |bytes| then bytes[j] else 0
  }

  /** The 24 bits of four symbols from `j` on are those of three bytes from `i` on. */
  predicate SameBits(text: string, j: nat, bytes: Bytes, i: nat) {
    BitsAt(text, j) * 262144 + BitsAt(text, j + 1) * 4096 + BitsAt(text, j + 2) * 64 + BitsAt(text, j + 3)
      == ByteAt(bytes, i) * 65536 + ByteAt(bytes, i + 1) * 256 + ByteAt(bytes, i + 2)
  }

  lemma SymbolsBits(a: int, b: int, c: int, i: nat)
    requires 0 <= a < 256 && 0 <= b < 256 && 0 <= c < 256 && i < 4
    ensures ValueOf(Symbols(a, b, c)[i]) == Some([a / 4, a % 4 * 16 + b / 16, b % 16 * 4 + c / 64, c % 64][i])
  {
    SymbolIsTabled([a / 4, a % 4 * 16 + b / 16, b % 16 * 4 + c / 64, c % 64][i]);
  }

  lemma BitsOfThree(x: int, y: int, z: int)
    requires 0 <= x < 256 && 0 <= y < 256 && 0 <= z < 256
    ensures x / 4 * 262144 + (x % 4 * 16 + y / 16) * 4096 + (y % 16 * 4 + z / 64) * 64 + z % 64 == x * 65536 + y * 256 + z
  {
  }

  /** The first four symbols, of which the last may be missing for want of bytes. */
  lemma FirstSymbols(bytes: Bytes, i: nat)
    requires bytes != [] && i < 4
    ensures
      var x, y, z := ByteAt(bytes, 0), ByteAt(bytes, 1), ByteAt(bytes, 2);
      BitsAt(Encode(bytes), i) == [x / 4, x % 4 * 16 + y / 16, y % 16 * 4 + z / 64, z % 64][i]
  {
    SymbolsBits(ByteAt(bytes, 0), ByteAt(bytes, 1), ByteAt(bytes, 2), i);
  }

  lemma FirstBits(bytes: Bytes)
    requires bytes != []
    ensures SameBits(Encode(bytes), 0, bytes, 0)
  {
    FirstSymbols(bytes, 0);
    FirstSymbols(bytes, 1);
    FirstSymbols(bytes, 2);
    FirstSymbols(bytes, 3);
    BitsOfThree(ByteAt(bytes, 0), ByteAt(bytes, 1), ByteAt(bytes, 2));
  }

  lemma {:induction false} EncodesFrom(bytes: Bytes, g: nat, i: nat, j: nat)
    requires i < |bytes| && i == 3 * g && j == 4 * g
    ensures j <= |Encode(bytes)| && Encode(bytes)[j..] == Encode(bytes[i..])
    decreases g
  {
    if g == 0 {
      assert bytes[0..] == bytes;
    } else {
      var first, rest := Symbols(bytes[0], bytes[1], bytes[2]), Encode(bytes[3..]);
      assert Encode(bytes) == first + rest;
      EncodesFrom(bytes[3..], g - 1, i - 3, j - 4);
      assert bytes[3..][i - 3..] == bytes[i..];
      assert (first + rest)[j..] == rest[j - 4..];
    }
  }

  /** The encoding has the bits of the bytes in order, six to a symbol of the table. */
  lemma EncodingIsTheBits(bytes: Bytes, g: nat, i: nat, j: nat)
    requires i < |bytes| && i == 3 * g && j == 4 * g
    ensures SameBits(Encode(bytes), j, bytes, i)
  {
    var text, rest := Encode(bytes), bytes[i..];
    EncodesFrom(bytes, g, i, j);
    FirstBits(rest);
    assert forall k :: 0 <= k < |text| - j ==> text[j..][k] == text[j + k];
    assert ByteAt(rest, 0) == ByteAt(bytes, i) && ByteAt(rest, 1) == ByteAt(bytes, i + 1);
    assert ByteAt(rest, 2) == ByteAt(bytes, i + 2);
    assert BitsAt(Encode(rest), 0) == BitsAt(text, j) && BitsAt(Encode(rest), 1) == BitsAt(text, j + 1);
    assert BitsAt(Encode(rest), 2) == BitsAt(text, j + 2) && BitsAt(Encode(rest), 3) == BitsAt(text, j + 3);
  }

  lemma {:induction false} EncodingLength(bytes: Bytes)
    ensures |Encode(bytes)| == (4 * |bytes| + 2) / 3
  {
    if |bytes| > 2 {
      EncodingLength(bytes[3..]);
    }
  }
}
