/** UTF-8 over Unicode scalar values, with the strict decoder of a fatal TextDecoder. */
module Utf8 {
  import opened Basics
  import opened Base64Url

  function EncodeChar(c: char): (bytes: seq<Byte>)
    ensures 1 <= |bytes| <= 4
  {
    var n := c as int;
    if n < 0x80 then [n]
    else if n < 0x800 then [0xC0 + n / 64, 0x80 + n % 64]
    else if n < 0x10000 then [0xE0 + n / 4096, 0x80 + n / 64 % 64, 0x80 + n % 64]
    else [0xF0 + n / 262144, 0x80 + n / 4096 % 64, 0x80 + n / 64 % 64, 0x80 + n % 64]
  }

  function Encode(text: string): seq<Byte> {
    if text == "" then [] else EncodeChar(text[0]) + Encode(text[1..])
  }

  /** How many bytes the first byte announces; 0 for a byte that cannot start a character. */
  function Width(first: Byte): nat {
    if first < 0x80 then 1
    else if first < 0xC0 then 0
    else if first < 0xE0 then 2
    else if first < 0xF0 then 3
    else if first < 0xF8 then 4
    else 0
  }

  function Value(bytes: seq<Byte>): int
    requires 1 <= |bytes| <= 4
  {
    var first: int := bytes[0];
    if |bytes| == 1 then first
    else if |bytes| == 2 then Join(first - 0xC0, bytes[1])
    else if |bytes| == 3 then Join(Join(first - 0xE0, bytes[1]), bytes[2])
    else Join(Join(Join(first - 0xF0, bytes[1]), bytes[2]), bytes[3])
  }

  function Join(high: int, continuation: int): int { high * 64 + (continuation - 0x80) }

  predicate IsScalar(n: int) { 0 <= n < 0xD800 || 0xE000 <= n < 0x11_0000 }

  /** The character at the start, read strictly: overlong, truncated, surrogate
      and out-of-range forms are refused because they do not print back. */
  function DecodeFirst(bytes: seq<Byte>): (r: Option<char>)
    requires bytes != []
    ensures r.Some? ==> EncodeChar(r.value) <= bytes
  {
    var width := Width(bytes[0]);
    if width == 0 || |bytes| < width then None
    else
      var n := Value(bytes[..width]);
      if IsScalar(n) && EncodeChar(n as char) == bytes[..width] then Some(n as char) else None
  }

  function Decode(bytes: seq<Byte>): Option<string> {
    if bytes == [] then Some("")
    else
      var c := DecodeFirst(bytes);
      if c.None? then None
      else
        var rest := Decode(bytes[|EncodeChar(c.value)|..]);
        if rest.None? then None else Some([c.value] + rest.value)
  }

  lemma CharScalar(c: char)
    ensures IsScalar(c as int)
  {
  }

  lemma ValueOfEncode(c: char)
    ensures Width(EncodeChar(c)[0]) == |EncodeChar(c)| && Value(EncodeChar(c)) == c as int
  {
    CharScalar(c);
    var n := c as int;
    if n >= 0x10000 {
      assert n / 262144 * 64 + n / 4096 % 64 == n / 4096;
      assert n / 4096 * 64 + n / 64 % 64 == n / 64;
    } else if n >= 0x800 {
      assert n / 4096 * 64 + n / 64 % 64 == n / 64;
    }
  }

  /** Strict decoding accepts every encoding, and returns its text. */
  lemma {:induction false} DecodeUndoesEncode(text: string)
    ensures Decode(Encode(text)) == Some(text)
  {
    if text == "" {
    } else {
      DecodeUndoesEncode(text[1..]);
      ValueOfEncode(text[0]);
      CharScalar(text[0]);
      var bytes, head := Encode(text), EncodeChar(text[0]);
      assert bytes[..|head|] == head && bytes[|head|..] == Encode(text[1..]);
      assert [text[0]] + text[1..] == text;
    }
  }

  lemma EncodeCons(c: char, rest: string)
    ensures Encode([c] + rest) == EncodeChar(c) + Encode(rest)
  {
  }

  lemma PrefixSplits(bytes: seq<Byte>, head: seq<Byte>)
    requires head <= bytes
    ensures head + bytes[|head|..] == bytes
  {
  }

  /** Whatever is accepted is the encoding of the decoded text. */
  lemma {:induction false} EncodeUndoesDecode(bytes: seq<Byte>)
    requires Decode(bytes).Some?
    ensures Encode(Decode(bytes).value) == bytes
    decreases |bytes|
  {
    if bytes == [] {
    } else {
      var c := DecodeFirst(bytes).value;
      var tail := bytes[|EncodeChar(c)|..];
      EncodeUndoesDecode(tail);
      EncodeCons(c, Decode(tail).value);
      PrefixSplits(bytes, EncodeChar(c));
    }
  }

  /** ASCII text is one byte a character. */
  lemma {:induction false} AsciiLength(text: string)
    requires forall i :: 0 <= i < |text| ==> text[i] as int < 0x80
    ensures |Encode(text)| == |text|
  {
    if text == "" {
    } else {
      AsciiLength(text[1..]);
    }
  }

  predicate Continues(b: Byte) { 0x80 <= b < 0xC0 }

  /** The layout of a character: the shortest form by its size, the length announced in
      the first byte, and six bits in each continuation byte. */
  lemma CharLayout(c: char)
    ensures var n, b := c as int, EncodeChar(c);
            && |b| == (if n < 0x80 then 1 else if n < 0x800 then 2 else if n < 0x10000 then 3 else 4)
            && (forall i :: 0 < i < |b| ==> Continues(b[i]))
            && match |b|
               case 1 => b[0] == n
               case 2 => 0xC0 <= b[0] < 0xE0 && n == Join(b[0] as int - 0xC0, b[1])
               case 3 => 0xE0 <= b[0] < 0xF0 && n == Join(Join(b[0] as int - 0xE0, b[1]), b[2])
               case _ => 0xF0 <= b[0] < 0xF8 && n == Join(Join(Join(b[0] as int - 0xF0, b[1]), b[2]), b[3])
  {
    ValueOfEncode(c);
  }

  /** A text is encoded character after character. */
  lemma {:induction false} EncodeConcat(a: string, b: string)
    ensures Encode(a + b) == Encode(a) + Encode(b)
  {
    if a == "" {
      assert a + b == b;
    } else {
      assert (a + b)[1..] == a[1..] + b;
      EncodeConcat(a[1..], b);
    }
  }
}
