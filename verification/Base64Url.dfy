/** Unpadded base64url (section 5 of RFC 4648, padding omitted as in section
    3.2): the strict decoder accepts canonical text only (section 3.5). */
module Base64Url {
  import opened Basics

  type Byte = b: int | 0 <= b < 256
  type Sextet = s: int | 0 <= s < 64

  /** The alphabet A-Z a-z 0-9 - _ by index. */
  function Symbol(s: Sextet): char {
    if s < 26 then 'A' + s as char
    else if s < 52 then 'a' + (s - 26) as char
    else if s < 62 then '0' + (s - 52) as char
    else if s == 62 then '-' else '_'
  }

  predicate InAlphabet(c: char) {
    'A' <= c <= 'Z' || 'a' <= c <= 'z' || '0' <= c <= '9' || c == '-' || c == '_'
  }

  function IndexOfSymbol(c: char): Sextet
    requires InAlphabet(c)
  {
    if 'A' <= c <= 'Z' then c as int - 'A' as int
    else if 'a' <= c <= 'z' then c as int - 'a' as int + 26
    else if '0' <= c <= '9' then c as int - '0' as int + 52
    else if c == '-' then 62 else 63
  }

  lemma SymbolsAndIndices()
    ensures forall s: Sextet :: InAlphabet(Symbol(s)) && IndexOfSymbol(Symbol(s)) == s
    ensures forall c :: InAlphabet(c) ==> Symbol(IndexOfSymbol(c)) == c
  {
  }

  /** The lookup table over byte codes: 255 everywhere but at the alphabet. */
  method BuildTable(alphabet: string) returns (table: array<int>)
    requires |alphabet| < 255
    requires forall i :: 0 <= i < |alphabet| ==> alphabet[i] as int < 256
    requires forall i, j :: 0 <= i < j < |alphabet| ==> alphabet[i] != alphabet[j]
    ensures fresh(table) && table.Length == 256
    ensures forall i :: 0 <= i < |alphabet| ==> table[alphabet[i] as int] == i
    ensures forall code :: 0 <= code < 256 && code as char !in alphabet ==> table[code] == 255
  {
    table := new int[256](_ => 255);
    for index := 0 to |alphabet|
      invariant forall i :: 0 <= i < index ==> table[alphabet[i] as int] == i
      invariant forall code :: 0 <= code < 256 && code as char !in alphabet[..index] ==> table[code] == 255
    {
      table[alphabet[index] as int] := index;
    }
    assert alphabet[..|alphabet|] == alphabet;
  }

  function SourceAlphabet(): string {
    "ABCDEFGHIJKLMNOPQRSTUVWXYZ" + "abcdefghijklmnopqrstuvwxyz" + "0123456789" + "-_"
  }

  lemma LettersInOrder()
    ensures forall i :: 0 <= i < 26 ==> "ABCDEFGHIJKLMNOPQRSTUVWXYZ"[i] == 'A' + i as char
    ensures forall i :: 0 <= i < 26 ==> "abcdefghijklmnopqrstuvwxyz"[i] == 'a' + i as char
    ensures forall i :: 0 <= i < 10 ==> "0123456789"[i] == '0' + i as char
  {
  }

  lemma AlphabetIsSymbols()
    ensures |SourceAlphabet()| == 64 && forall s: Sextet :: SourceAlphabet()[s] == Symbol(s)
  {
    LettersInOrder();
    var alphabet := SourceAlphabet();
    forall s: Sextet ensures alphabet[s] == Symbol(s) {
      if s < 26 {
        assert alphabet[s] == "ABCDEFGHIJKLMNOPQRSTUVWXYZ"[s];
      } else if s < 52 {
        assert alphabet[s] == "abcdefghijklmnopqrstuvwxyz"[s - 26];
      } else if s < 62 {
        assert alphabet[s] == "0123456789"[s - 52];
      } else {
        assert alphabet[s] == "-_"[s - 62];
      }
    }
  }

  /** The table the decoder looks the last symbol up in. */
  method SourceTable() returns (table: array<int>)
    ensures fresh(table) && table.Length == 256
    ensures forall code :: 0 <= code < 256 ==>
              table[code] == if InAlphabet(code as char) then IndexOfSymbol(code as char) else 255
  {
    AlphabetIsSymbols();
    SymbolsAndIndices();
    var alphabet := SourceAlphabet();
    assert forall i, j :: 0 <= i < j < 64 ==> IndexOfSymbol(alphabet[i]) != IndexOfSymbol(alphabet[j]);
    table := BuildTable(alphabet);
    forall code | 0 <= code < 256
      ensures table[code] == if InAlphabet(code as char) then IndexOfSymbol(code as char) else 255
    {
      var c := code as char;
      if InAlphabet(c) {
        assert alphabet[IndexOfSymbol(c)] == c;
      }
    }
  }

  function Symbols(sextets: seq<Sextet>): (text: string)
    ensures |text| == |sextets|
    ensures forall i :: 0 <= i < |sextets| ==> text[i] == Symbol(sextets[i])
  {
    seq(|sextets|, i requires 0 <= i < |sextets| => Symbol(sextets[i]))
  }

  predicate AllInAlphabet(text: string) {
    forall i :: 0 <= i < |text| ==> InAlphabet(text[i])
  }

  function Indices(text: string): (sextets: seq<Sextet>)
    requires AllInAlphabet(text)
    ensures |sextets| == |text|
    ensures forall i :: 0 <= i < |text| ==> sextets[i] == IndexOfSymbol(text[i])
  {
    seq(|text|, i requires 0 <= i < |text| => IndexOfSymbol(text[i]))
  }

  // ---- three bytes are four sextets ----

  /** The sextets of a group of three, zero standing for an absent byte. */
  function Group(a: int, b: int, c: int): (s: seq<Sextet>)
    requires 0 <= a < 256 && 0 <= b < 256 && 0 <= c < 256
    ensures |s| == 4
  {
    [a / 4, a % 4 * 16 + b / 16, b % 16 * 4 + c / 64, c % 64]
  }

  /** The three bytes that four sextets carry. */
  function Ungroup(s: int, t: int, u: int, v: int): (bytes: seq<Byte>)
    requires 0 <= s < 64 && 0 <= t < 64 && 0 <= u < 64 && 0 <= v < 64
    ensures |bytes| == 3
  {
    [s * 4 + t / 16, t % 16 * 16 + u / 4, u % 4 * 64 + v]
  }

  function EncodeSextets(bytes: seq<Byte>): seq<Sextet> {
    if bytes == [] then []
    else if |bytes| == 1 then Group(bytes[0], 0, 0)[..2]
    else if |bytes| == 2 then Group(bytes[0], bytes[1], 0)[..3]
    else Group(bytes[0], bytes[1], bytes[2]) + EncodeSextets(bytes[3..])
  }

  /** The library decoder: leftover bits are dropped, a lone last sextet too. */
  function DecodeSextets(s: seq<Sextet>): seq<Byte> {
    if |s| < 2 then []
    else if |s| == 2 then Ungroup(s[0], s[1], 0, 0)[..1]
    else if |s| == 3 then Ungroup(s[0], s[1], s[2], 0)[..2]
    else Ungroup(s[0], s[1], s[2], s[3]) + DecodeSextets(s[4..])
  }

  lemma Pack(hi: int, lo: int)
    ensures 0 <= lo < 4 ==> (hi * 4 + lo) / 4 == hi && (hi * 4 + lo) % 4 == lo
    ensures 0 <= lo < 16 ==> (hi * 16 + lo) / 16 == hi && (hi * 16 + lo) % 16 == lo
    ensures 0 <= lo < 64 ==> (hi * 64 + lo) / 64 == hi && (hi * 64 + lo) % 64 == lo
  {
  }

  lemma UngroupOfGroup(a: int, b: int, c: int)
    requires 0 <= a < 256 && 0 <= b < 256 && 0 <= c < 256
    ensures var g := Group(a, b, c); Ungroup(g[0], g[1], g[2], g[3]) == [a, b, c]
    ensures b == 0 && c == 0 ==> var g := Group(a, b, c); g[2] == 0 && g[3] == 0 && g[1] % 16 == 0
    ensures c == 0 ==> var g := Group(a, b, c); g[3] == 0 && g[2] % 4 == 0
  {
    Pack(a / 4, a % 4);
    Pack(a % 4, b / 16);
    Pack(b / 16, b % 16);
    Pack(b % 16, c / 64);
    Pack(c / 64, c % 64);
  }

  lemma GroupOfUngroup(s: int, t: int, u: int, v: int)
    requires 0 <= s < 64 && 0 <= t < 64 && 0 <= u < 64 && 0 <= v < 64
    ensures var b := Ungroup(s, t, u, v); Group(b[0], b[1], b[2]) == [s, t, u, v]
    ensures var b := Ungroup(s, t, u, v); u == 0 && v == 0 && t % 16 == 0 ==> b[1] == 0 && b[2] == 0
    ensures var b := Ungroup(s, t, u, v); v == 0 && u % 4 == 0 ==> b[2] == 0
  {
    Pack(s, t / 16);
    Pack(t % 16, u / 4);
    Pack(u % 4, v);
  }

  /** Leftover bits of the last sextet, by the length of the text. */
  predicate LeftoverZero(s: seq<Sextet>) {
    && (|s| % 4 == 2 ==> s[|s| - 1] % 16 == 0)
    && (|s| % 4 == 3 ==> s[|s| - 1] % 4 == 0)
  }

  lemma {:induction false} EncodedSize(bytes: seq<Byte>)
    ensures |EncodeSextets(bytes)| == (4 * |bytes| + 2) / 3
  {
    if |bytes| < 3 {
    } else {
      EncodedSize(bytes[3..]);
    }
  }

  lemma {:induction false} EncodedLeftover(bytes: seq<Byte>)
    ensures LeftoverZero(EncodeSextets(bytes))
  {
    if |bytes| == 1 {
      UngroupOfGroup(bytes[0], 0, 0);
    } else if |bytes| == 2 {
      UngroupOfGroup(bytes[0], bytes[1], 0);
    } else if |bytes| >= 3 {
      EncodedLeftover(bytes[3..]);
      LeftoverOfTail(Group(bytes[0], bytes[1], bytes[2]), EncodeSextets(bytes[3..]));
    }
  }

  lemma LeftoverOfTail(group: seq<Sextet>, rest: seq<Sextet>)
    requires |group| == 4 && LeftoverZero(rest)
    ensures LeftoverZero(group + rest)
  {
  }

  lemma NoLoneSextet(n: nat)
    ensures (4 * n + 2) / 3 % 4 != 1
  {
  }

  lemma EncodedShape(bytes: seq<Byte>)
    ensures |EncodeSextets(bytes)| == (4 * |bytes| + 2) / 3
    ensures |EncodeSextets(bytes)| % 4 != 1 && LeftoverZero(EncodeSextets(bytes))
  {
    EncodedSize(bytes);
    NoLoneSextet(|bytes|);
    EncodedLeftover(bytes);
  }

  lemma {:induction false} DecodeOfEncode(bytes: seq<Byte>)
    ensures DecodeSextets(EncodeSextets(bytes)) == bytes
  {
    if |bytes| == 1 {
      UngroupOfGroup(bytes[0], 0, 0);
    } else if |bytes| == 2 {
      UngroupOfGroup(bytes[0], bytes[1], 0);
    } else if |bytes| >= 3 {
      UngroupOfGroup(bytes[0], bytes[1], bytes[2]);
      DecodeOfEncode(bytes[3..]);
      assert EncodeSextets(bytes)[4..] == EncodeSextets(bytes[3..]);
    }
  }

  lemma {:induction false} EncodeOfDecode(s: seq<Sextet>)
    requires |s| % 4 != 1 && LeftoverZero(s)
    ensures EncodeSextets(DecodeSextets(s)) == s
  {
    if |s| == 2 || |s| == 3 {
      EncodeOfDecodeEnd(s);
    } else if |s| >= 4 {
      EncodeOfDecode(s[4..]);
      EncodeOfDecodeGroup(s[0], s[1], s[2], s[3], s[4..]);
      assert s == [s[0], s[1], s[2], s[3]] + s[4..];
    }
  }

  lemma EncodeOfDecodeGroup(s: Sextet, t: Sextet, u: Sextet, v: Sextet, rest: seq<Sextet>)
    requires EncodeSextets(DecodeSextets(rest)) == rest
    ensures EncodeSextets(DecodeSextets([s, t, u, v] + rest)) == [s, t, u, v] + rest
  {
    GroupOfUngroup(s, t, u, v);
    EncodeGroup(Ungroup(s, t, u, v), DecodeSextets(rest));
    assert ([s, t, u, v] + rest)[4..] == rest;
  }

  lemma EncodeGroup(three: seq<Byte>, tail: seq<Byte>)
    requires |three| == 3
    ensures EncodeSextets(three + tail) == Group(three[0], three[1], three[2]) + EncodeSextets(tail)
  {
  }

  lemma EncodeOfDecodeEnd(s: seq<Sextet>)
    requires (|s| == 2 || |s| == 3) && LeftoverZero(s)
    ensures EncodeSextets(DecodeSextets(s)) == s
  {
    if |s| == 2 {
      GroupOfUngroup(s[0], s[1], 0, 0);
    } else {
      GroupOfUngroup(s[0], s[1], s[2], 0);
    }
  }

  // ---- text ----

  function EncodeBase64url(bytes: seq<Byte>): string {
    Symbols(EncodeSextets(bytes))
  }

  datatype Base64Error = NotAlphabet | BadLength | Empty | LeftoverBits | NotCanonical

  function DecodeBase64url(payload: string): Result<seq<Byte>, Base64Error> {
    if !AllInAlphabet(payload) then Err(NotAlphabet)
    else if |payload| % 4 == 1 then Err(BadLength)
    else if |payload| == 0 then Err(Empty)
    else
      var last := IndexOfSymbol(payload[|payload| - 1]);
      if |payload| % 4 == 2 && last % 16 != 0 then Err(LeftoverBits)
      else if |payload| % 4 == 3 && last % 4 != 0 then Err(LeftoverBits)
      else
        var bytes := DecodeSextets(Indices(payload));
        if EncodeBase64url(bytes) != payload then Err(NotCanonical) else Ok(bytes)
  }

  lemma EncodedLength(bytes: seq<Byte>)
    ensures |EncodeBase64url(bytes)| == (4 * |bytes| + 2) / 3
    ensures AllInAlphabet(EncodeBase64url(bytes))
  {
    EncodedShape(bytes);
    SymbolsAndIndices();
  }

  lemma DecodeAccepts(payload: string, bytes: seq<Byte>)
    requires payload != "" && AllInAlphabet(payload) && |payload| % 4 != 1 && LeftoverZero(Indices(payload))
    requires DecodeSextets(Indices(payload)) == bytes && EncodeBase64url(bytes) == payload
    ensures DecodeBase64url(payload) == Ok(bytes)
  {
  }

  lemma IndicesOfSymbols(sextets: seq<Sextet>)
    ensures AllInAlphabet(Symbols(sextets)) && Indices(Symbols(sextets)) == sextets
  {
    SymbolsAndIndices();
  }

  /** Decoding undoes encoding on every nonempty byte string. */
  lemma DecodeUndoesEncode(bytes: seq<Byte>)
    requires bytes != []
    ensures DecodeBase64url(EncodeBase64url(bytes)) == Ok(bytes)
  {
    EncodedShape(bytes);
    IndicesOfSymbols(EncodeSextets(bytes));
    DecodeOfEncode(bytes);
    DecodeAccepts(EncodeBase64url(bytes), bytes);
  }

  /** The alphabet, length and leftover tests already make the text canonical:
      the comparison with the re-encoded bytes never fires. */
  lemma NeverNotCanonical(payload: string)
    ensures DecodeBase64url(payload) != Err(NotCanonical)
  {
    if AllInAlphabet(payload) && |payload| % 4 != 1 && payload != "" {
      SymbolsAndIndices();
      var s := Indices(payload);
      if LeftoverZero(s) {
        EncodeOfDecode(s);
        assert Symbols(s) == payload;
      }
    }
  }

  /** The accepted payloads are exactly the encodings of nonempty byte strings,
      and an accepted payload is the encoding of what it decodes to. */
  lemma AcceptsExactlyEncodings(payload: string)
    ensures DecodeBase64url(payload).Ok? <==> exists bytes: seq<Byte> :: bytes != [] && EncodeBase64url(bytes) == payload
    ensures forall bytes: seq<Byte> :: DecodeBase64url(payload) == Ok(bytes) ==>
              bytes != [] && EncodeBase64url(bytes) == payload
  {
    var r := DecodeBase64url(payload);
    if r.Ok? {
      EncodedLength(r.value);
      assert r.value != [];
    }
    if bytes: seq<Byte> :| bytes != [] && EncodeBase64url(bytes) == payload {
      DecodeUndoesEncode(bytes);
    }
  }

  /** No two payloads decode to the same bytes. */
  lemma DecodeInjective(p: string, q: string)
    ensures DecodeBase64url(p).Ok? && DecodeBase64url(p) == DecodeBase64url(q) ==> p == q
  {
    AcceptsExactlyEncodings(p);
    AcceptsExactlyEncodings(q);
  }

  // ---- the bits of the text ----

  /** A byte, or zero past the end. */
  function ByteAt(bytes: seq<Byte>, i: nat): int { if i < |bytes| then bytes[i] else 0 }

  function SextetAt(s: seq<Sextet>, i: nat): int { if i < |s| then s[i] else 0 }

  lemma GroupNumber(a: int, b: int, c: int)
    requires 0 <= a < 256 && 0 <= b < 256 && 0 <= c < 256
    ensures var s := Group(a, b, c);
            ((SextetAt(s, 0) * 64 + SextetAt(s, 1)) * 64 + SextetAt(s, 2)) * 64 + SextetAt(s, 3) == (a * 256 + b) * 256 + c
  {
    assert b / 16 * 16 + b % 16 == b && c / 64 * 64 + c % 64 == c && a / 4 * 4 + a % 4 == a;
  }

  /** Each group of four sextets is the 24-bit number of its three bytes, the most
      significant first and zero for what is absent. */
  lemma {:induction false} EncodedGroups(bytes: seq<Byte>, k: nat)
    ensures var s := EncodeSextets(bytes);
            ((SextetAt(s, 4 * k) * 64 + SextetAt(s, 4 * k + 1)) * 64 + SextetAt(s, 4 * k + 2)) * 64 + SextetAt(s, 4 * k + 3)
            == (ByteAt(bytes, 3 * k) * 256 + ByteAt(bytes, 3 * k + 1)) * 256 + ByteAt(bytes, 3 * k + 2)
  {
    var s := EncodeSextets(bytes);
    if |bytes| >= 3 && k > 0 {
      EncodedGroups(bytes[3..], k - 1);
      LaterGroup(bytes, k);
    } else if |bytes| > 0 && k == 0 {
      GroupNumber(ByteAt(bytes, 0), ByteAt(bytes, 1), ByteAt(bytes, 2));
      FirstGroup(bytes);
    }
  }

  lemma FirstGroup(bytes: seq<Byte>)
    requires |bytes| > 0
    ensures var s, g := EncodeSextets(bytes), Group(ByteAt(bytes, 0), ByteAt(bytes, 1), ByteAt(bytes, 2));
            forall i :: 0 <= i < 4 ==> SextetAt(s, i) == g[i]
  {
  }

  lemma LaterGroup(bytes: seq<Byte>, k: nat)
    requires |bytes| >= 3 && k > 0
    ensures forall i: nat :: SextetAt(EncodeSextets(bytes), 4 + i) == SextetAt(EncodeSextets(bytes[3..]), i)
    ensures forall i: nat :: ByteAt(bytes, 3 + i) == ByteAt(bytes[3..], i)
  {
  }

  /** The text writes those sextets in the alphabet, and nothing else. */
  lemma EncodedText(bytes: seq<Byte>)
    ensures |EncodeBase64url(bytes)| == (4 * |bytes| + 2) / 3 == |EncodeSextets(bytes)|
    ensures forall i :: 0 <= i < |EncodeSextets(bytes)| ==> EncodeBase64url(bytes)[i] == SourceAlphabet()[EncodeSextets(bytes)[i]]
  {
    EncodedShape(bytes);
    AlphabetIsSymbols();
  }

  lemma InSource(c: char)
    ensures c in SourceAlphabet() <==> InAlphabet(c)
  {
    AlphabetIsSymbols();
    SymbolsAndIndices();
    if InAlphabet(c) {
      assert SourceAlphabet()[IndexOfSymbol(c)] == c;
    }
  }

  /** Why a payload is refused, in the order of the tests. */
  lemma RefusedExactly(payload: string)
    ensures DecodeBase64url(payload) == Err(NotAlphabet) <==> exists c :: c in payload && c !in SourceAlphabet()
    ensures DecodeBase64url(payload) == Err(BadLength) <==>
              (forall c :: c in payload ==> c in SourceAlphabet()) && |payload| % 4 == 1
    ensures DecodeBase64url(payload) == Err(Empty) <==> payload == ""
  {
    forall c | c in payload ensures c in SourceAlphabet() <==> InAlphabet(c) {
      InSource(c);
    }
    AlphabetIff(payload);
    RefusalOrder(payload);
  }

  lemma AlphabetIff(payload: string)
    ensures AllInAlphabet(payload) <==> forall c :: c in payload ==> InAlphabet(c)
  {
    if forall c :: c in payload ==> InAlphabet(c) {
      assert forall i :: 0 <= i < |payload| ==> payload[i] in payload;
    }
  }

  lemma RefusalOrder(payload: string)
    ensures DecodeBase64url(payload) == Err(NotAlphabet) <==> !AllInAlphabet(payload)
    ensures DecodeBase64url(payload) == Err(BadLength) <==> AllInAlphabet(payload) && |payload| % 4 == 1
    ensures DecodeBase64url(payload) == Err(Empty) <==> payload == ""
  {
  }
}
