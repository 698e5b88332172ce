/** The text form of JSON pointers (section 4 of RFC 6901): token escapes,
    array indices, and splitting a pointer into its tokens. */
module PointerText {
  import opened Basics

  /** `text.replace(/c/g, sub)`. */
  function ReplaceChar(text: string, c: char, sub: string): string {
    if text == "" then ""
    else (if text[0] == c then sub else [text[0]]) + ReplaceChar(text[1..], c, sub)
  }

  /** `text.replace(/~d/g, c)`: one pass from the left, matches do not overlap. */
  function ReplaceEscape(text: string, d: char, c: char): string {
    if |text| < 2 then text
    else if text[0] == '~' && text[1] == d then [c] + ReplaceEscape(text[2..], d, c)
    else [text[0]] + ReplaceEscape(text[1..], d, c)
  }

  function JsonPointerToken(key: string): string {
    ReplaceChar(ReplaceChar(key, '~', "~0"), '/', "~1")
  }

  function DecodePointerToken(token: string): string {
    ReplaceEscape(ReplaceEscape(token, '1', '/'), '0', '~')
  }

  lemma {:induction false} SlashEscapeUndone(key: string)
    ensures ReplaceEscape(JsonPointerToken(key), '1', '/') == ReplaceChar(key, '~', "~0")
  {
    if key == "" {
    } else {
      SlashEscapeUndone(key[1..]);
      var tail := ReplaceChar(key[1..], '~', "~0");
      var token := JsonPointerToken(key[1..]);
      if key[0] == '~' {
        var whole := "~0" + tail;
        assert whole[1..] == "0" + tail && ("0" + tail)[1..] == tail;
        assert ReplaceChar("0" + tail, '/', "~1") == "0" + token;
        assert JsonPointerToken(key) == "~0" + token;
        assert ("~0" + token)[1..] == "0" + token && ("0" + token)[1..] == token;
        assert ReplaceEscape("0" + token, '1', '/') == "0" + ReplaceEscape(token, '1', '/');
      } else {
        assert ([key[0]] + tail)[1..] == tail;
        if key[0] == '/' {
          assert JsonPointerToken(key) == "~1" + token && ("~1" + token)[2..] == token;
        } else {
          assert JsonPointerToken(key) == [key[0]] + token && ([key[0]] + token)[1..] == token;
        }
      }
    }
  }

  lemma {:induction false} TildeEscapeUndone(key: string)
    ensures ReplaceEscape(ReplaceChar(key, '~', "~0"), '0', '~') == key
  {
    if key == "" {
    } else {
      TildeEscapeUndone(key[1..]);
      var tail := ReplaceChar(key[1..], '~', "~0");
      if key[0] == '~' {
        assert ("~0" + tail)[2..] == tail;
      } else {
        assert ([key[0]] + tail)[1..] == tail;
      }
    }
  }

  /** The two sequential global replaces undo the escape, for every key. */
  lemma TokenRoundTrip(key: string)
    ensures DecodePointerToken(JsonPointerToken(key)) == key
  {
    SlashEscapeUndone(key);
    TildeEscapeUndone(key);
  }

  lemma {:induction false} ReplaceCharRemoves(text: string, c: char, sub: string)
    requires c !in sub
    ensures c !in ReplaceChar(text, c, sub)
  {
    if text == "" {
    } else {
      ReplaceCharRemoves(text[1..], c, sub);
    }
  }

  lemma TokenHasNoSlash(key: string)
    ensures '/' !in JsonPointerToken(key)
  {
    ReplaceCharRemoves(ReplaceChar(key, '~', "~0"), '/', "~1");
  }

  // ---- decimal array indices ----

  predicate IsDigit(c: char) { '0' <= c <= '9' }

  /** `String(n)` for an array index. */
  function Decimal(n: nat): (text: string)
    ensures text != "" && forall i :: 0 <= i < |text| ==> IsDigit(text[i])
  {
    var last := ['0' + (n % 10) as char];
    if n < 10 then last else Decimal(n / 10) + last
  }

  function DigitsValue(text: string): nat
    requires forall i :: 0 <= i < |text| ==> IsDigit(text[i])
  {
    if text == "" then 0
    else
      var last := text[|text| - 1];
      assert IsDigit(last);
      10 * DigitsValue(text[..|text| - 1]) + (last as int - '0' as int)
  }

  lemma {:induction false} DecimalValue(n: nat)
    ensures DigitsValue(Decimal(n)) == n
  {
    var last := ['0' + (n % 10) as char];
    if n < 10 {
      assert last[..0] == "";
    } else {
      DecimalValue(n / 10);
      assert (Decimal(n / 10) + last)[..|Decimal(n / 10)|] == Decimal(n / 10);
    }
  }

  /** The index a token names in an array of the given length: `Number(token)`
      has to print back as the same token and stay below the length. */
  function ArrayIndex(token: string, length: nat): (index: Option<nat>)
    ensures index.Some? ==> index.value < length && Decimal(index.value) == token
  {
    if token == "" || exists i :: 0 <= i < |token| && !IsDigit(token[i]) then None
    else
      var n := DigitsValue(token);
      if Decimal(n) == token && n < length then Some(n) else None
  }

  lemma ArrayIndexOfDecimal(n: nat, length: nat)
    ensures ArrayIndex(Decimal(n), length) == if n < length then Some(n) else None
  {
    DecimalValue(n);
  }

  // ---- splitting ----

  /** `text.split("/")`: always at least one part. */
  function Split(text: string): (parts: seq<string>)
    ensures parts != []
  {
    if text == "" then [""]
    else
      var rest := Split(text[1..]);
      if text[0] == '/' then [""] + rest else [[text[0]] + rest[0]] + rest[1..]
  }

  /** The parts after one more character in front of the text. */
  function Grown(c: char, parts: seq<string>): seq<string>
    requires parts != []
  {
    if c == '/' then [""] + parts else [[c] + parts[0]] + parts[1..]
  }

  lemma SplitCons(c: char, text: string)
    ensures Split([c] + text) == Grown(c, Split(text))
  {
  }

  lemma GrownConcat(c: char, a: seq<string>, b: seq<string>)
    requires a != []
    ensures Grown(c, a + b) == Grown(c, a) + b
  {
  }

  lemma {:induction false} SplitPart(part: string, rest: string)
    requires '/' !in part
    ensures Split(part) == [part]
    ensures Split(part + "/" + rest) == [part] + Split(rest)
  {
    if part == "" {
      assert ("" + "/" + rest)[1..] == rest;
    } else {
      SplitPart(part[1..], rest);
      assert [part[0]] + part[1..] == part;
      assert (part + "/" + rest)[1..] == part[1..] + "/" + rest;
    }
  }

  /** The pointer naming a path: `/token` for every key. */
  function Render(path: seq<string>): string {
    if path == [] then "" else "/" + JsonPointerToken(path[0]) + Render(path[1..])
  }

  function DecodeAll(parts: seq<string>): (path: seq<string>)
    ensures |path| == |parts|
    ensures forall i :: 0 <= i < |parts| ==> path[i] == DecodePointerToken(parts[i])
  {
    if parts == [] then [] else [DecodePointerToken(parts[0])] + DecodeAll(parts[1..])
  }

  /** `pointer.slice(1).split("/").map(decodePointerToken)`. */
  function Tokens(pointer: string): seq<string> {
    DecodeAll(Split(if pointer == "" then "" else pointer[1..]))
  }

  function EscapeAll(path: seq<string>): (parts: seq<string>)
    ensures |parts| == |path|
    ensures forall i :: 0 <= i < |path| ==> parts[i] == JsonPointerToken(path[i])
  {
    if path == [] then [] else [JsonPointerToken(path[0])] + EscapeAll(path[1..])
  }

  lemma SplitBelow(token: string, below: string)
    requires '/' !in token && below != "" && below[0] == '/'
    ensures Split(token + below) == [token] + Split(below[1..])
  {
    assert below == "/" + below[1..];
    assert token + below == token + "/" + below[1..];
    SplitPart(token, below[1..]);
  }

  lemma TailOfThree(first: string, token: string, rest: string)
    requires |first| == 1
    ensures (first + token + rest)[0] == first[0] && (first + token + rest)[1..] == token + rest
  {
  }

  lemma RenderTail(path: seq<string>)
    requires path != []
    ensures Render(path) != "" && Render(path)[0] == '/'
    ensures Render(path)[1..] == JsonPointerToken(path[0]) + Render(path[1..])
  {
    TailOfThree("/", JsonPointerToken(path[0]), Render(path[1..]));
  }

  lemma {:induction false} SplitRender(path: seq<string>)
    requires path != []
    ensures Render(path) != "" && Split(Render(path)[1..]) == EscapeAll(path)
  {
    var token, rest := JsonPointerToken(path[0]), path[1..];
    RenderTail(path);
    TokenHasNoSlash(path[0]);
    if rest == [] {
      assert token + Render(rest) == token;
      SplitPart(token, "");
    } else {
      RenderTail(rest);
      SplitRender(rest);
      SplitBelow(token, Render(rest));
    }
  }

  /** Reading back a rendered pointer gives the path, whatever the keys contain. */
  lemma TokensOfRender(path: seq<string>)
    requires path != []
    ensures Tokens(Render(path)) == path
  {
    SplitRender(path);
    var parts := EscapeAll(path);
    forall i | 0 <= i < |path|
      ensures DecodeAll(parts)[i] == path[i]
    {
      TokenRoundTrip(path[i]);
    }
  }

  lemma RenderInjective(p: seq<string>, q: seq<string>)
    requires Render(p) == Render(q)
    ensures p == q
  {
    if p != [] && q != [] {
      TokensOfRender(p);
      TokensOfRender(q);
    }
  }

  lemma {:induction false} RenderAppend(p: seq<string>, q: seq<string>)
    ensures Render(p + q) == Render(p) + Render(q)
  {
    if p == [] {
      assert p + q == q;
    } else {
      RenderAppend(p[1..], q);
      assert (p + q)[1..] == p[1..] + q && (p + q)[0] == p[0];
      var first := "/" + JsonPointerToken(p[0]);
      assert Render(p + q) == first + (Render(p[1..]) + Render(q));
    }
  }

  lemma {:induction false} ReplaceCharAbsent(text: string, c: char, sub: string)
    requires c !in text
    ensures ReplaceChar(text, c, sub) == text
  {
    if text == "" {
    } else {
      ReplaceCharAbsent(text[1..], c, sub);
    }
  }

  lemma RenderKey(p: seq<string>, key: string)
    ensures Render(p + [key]) == Render(p) + "/" + JsonPointerToken(key)
  {
    RenderAppend(p, [key]);
    assert [key][1..] == [];
    assert Render([]) == "";
  }

  /** An index is its own token, so `${pointer}/${index}` needs no escape. */
  lemma DecimalToken(n: nat)
    ensures JsonPointerToken(Decimal(n)) == Decimal(n)
  {
    var text := Decimal(n);
    assert '~' !in text && '/' !in text;
    ReplaceCharAbsent(text, '~', "~0");
    ReplaceCharAbsent(text, '/', "~1");
  }

  lemma RenderIndex(p: seq<string>, n: nat)
    ensures Render(p + [Decimal(n)]) == Render(p) + "/" + Decimal(n)
  {
    DecimalToken(n);
    RenderKey(p, Decimal(n));
  }

  // ---- what each text is, character by character ----

  lemma {:induction false} ReplaceCharConcat(a: string, b: string, c: char, sub: string)
    ensures ReplaceChar(a + b, c, sub) == ReplaceChar(a, c, sub) + ReplaceChar(b, c, sub)
  {
    if a == "" {
      assert a + b == b;
    } else {
      assert (a + b)[1..] == a[1..] + b;
      ReplaceCharConcat(a[1..], b, c, sub);
    }
  }

  lemma ReplaceInOne(x: char, c: char, sub: string)
    ensures ReplaceChar([x], c, sub) == if x == c then sub else [x]
  {
    assert [x][1..] == "";
  }

  /** The escape goes character by character: only tilde and slash are replaced. */
  lemma TokenByChar(a: string, c: char, b: string)
    ensures JsonPointerToken("") == ""
    ensures JsonPointerToken(a + b) == JsonPointerToken(a) + JsonPointerToken(b)
    ensures JsonPointerToken([c]) == if c == '~' then "~0" else if c == '/' then "~1" else [c]
  {
    ReplaceCharConcat(a, b, '~', "~0");
    ReplaceCharConcat(ReplaceChar(a, '~', "~0"), ReplaceChar(b, '~', "~0"), '/', "~1");
    ReplaceInOne(c, '~', "~0");
    if c == '~' {
      assert "~0" == ['~'] + ['0'];
      ReplaceCharConcat(['~'], ['0'], '/', "~1");
      ReplaceInOne('~', '/', "~1");
      ReplaceInOne('0', '/', "~1");
    } else {
      ReplaceInOne(c, '/', "~1");
    }
  }

  lemma EscapeStep(x: char, y: char, rest: string, d: char, c: char)
    ensures ReplaceEscape([x, y] + rest, d, c) ==
            if x == '~' && y == d then [c] + ReplaceEscape(rest, d, c) else [x] + ReplaceEscape([y] + rest, d, c)
    ensures ReplaceEscape([x], d, c) == [x]
  {
    assert ([x, y] + rest)[2..] == rest && ([x, y] + rest)[1..] == [y] + rest;
  }

  /** Any character but a tilde passes. */
  lemma EscapePasses(x: char, rest: string, d: char, c: char)
    requires x != '~'
    ensures ReplaceEscape([x] + rest, d, c) == [x] + ReplaceEscape(rest, d, c)
  {
    if rest == "" {
      assert [x] + rest == [x];
    } else {
      EscapeStep(x, rest[0], rest[1..], d, c);
      assert [x, rest[0]] + rest[1..] == [x] + rest && [rest[0]] + rest[1..] == rest;
    }
  }

  /** Decoding from the left: `~1` is a slash, `~0` a tilde, and everything else is kept,
      a tilde before any other character or at the end included. */
  lemma DecodeByChar(x: char, y: char, rest: string)
    ensures DecodePointerToken("") == "" && DecodePointerToken([x]) == [x]
    ensures DecodePointerToken(['~', '1'] + rest) == ['/'] + DecodePointerToken(rest)
    ensures DecodePointerToken(['~', '0'] + rest) == ['~'] + DecodePointerToken(rest)
    ensures x != '~' ==> DecodePointerToken([x] + rest) == [x] + DecodePointerToken(rest)
    ensures y != '0' && y != '1' ==> DecodePointerToken(['~', y] + rest) == ['~'] + DecodePointerToken([y] + rest)
  {
    DecodeSlash(rest);
    DecodeZero(rest);
    if x != '~' {
      EscapePasses(x, rest, '1', '/');
      EscapePasses(x, ReplaceEscape(rest, '1', '/'), '0', '~');
    }
    if y != '0' && y != '1' {
      DecodeTilde(y, rest);
    }
  }

  lemma DecodeSlash(rest: string)
    ensures DecodePointerToken(['~', '1'] + rest) == ['/'] + DecodePointerToken(rest)
  {
    EscapeStep('~', '1', rest, '1', '/');
    EscapePasses('/', ReplaceEscape(rest, '1', '/'), '0', '~');
  }

  lemma DecodeZero(rest: string)
    ensures DecodePointerToken(['~', '0'] + rest) == ['~'] + DecodePointerToken(rest)
  {
    var inner := ReplaceEscape(rest, '1', '/');
    EscapeStep('~', '0', rest, '1', '/');
    EscapePasses('0', rest, '1', '/');
    assert ['~'] + (['0'] + inner) == ['~', '0'] + inner;
    EscapeStep('~', '0', inner, '0', '~');
  }

  lemma DecodeTilde(y: char, rest: string)
    requires y != '0' && y != '1'
    ensures DecodePointerToken(['~', y] + rest) == ['~'] + DecodePointerToken([y] + rest)
  {
    EscapeStep('~', y, rest, '1', '/');
    var below := ReplaceEscape([y] + rest, '1', '/');
    StartsAs(y, rest);
    assert ['~', below[0]] + below[1..] == ['~'] + below && [below[0]] + below[1..] == below;
    EscapeStep('~', below[0], below[1..], '0', '~');
  }

  lemma StartsAs(y: char, rest: string)
    requires y != '0' && y != '1'
    ensures var below := ReplaceEscape([y] + rest, '1', '/'); below != "" && below[0] != '0'
  {
    if rest != "" {
      EscapeStep(y, rest[0], rest[1..], '1', '/');
      assert [y, rest[0]] + rest[1..] == [y] + rest;
    } else {
      assert [y] + rest == [y];
    }
  }

  /** An index prints without leading zeros. */
  lemma {:induction false} NoLeadingZero(n: nat)
    ensures Decimal(n)[0] == '0' <==> n == 0
  {
    if n < 10 {
    } else {
      NoLeadingZero(n / 10);
    }
  }

  function JoinSlash(parts: seq<string>): string
    requires parts != []
  {
    if |parts| == 1 then parts[0] else parts[0] + "/" + JoinSlash(parts[1..])
  }

  /** Splitting cuts at every slash and loses nothing. */
  lemma {:induction false} SplitExactly(text: string)
    ensures JoinSlash(Split(text)) == text && forall part :: part in Split(text) ==> '/' !in part
  {
    if text == "" {
    } else {
      var c, tail := text[0], text[1..];
      SplitExactly(tail);
      assert text == [c] + tail;
      SplitCons(c, tail);
      JoinGrown(c, Split(tail));
    }
  }

  lemma JoinGrown(c: char, parts: seq<string>)
    requires parts != [] && forall part :: part in parts ==> '/' !in part
    ensures JoinSlash(Grown(c, parts)) == [c] + JoinSlash(parts)
    ensures forall part :: part in Grown(c, parts) ==> '/' !in part
  {
    if c == '/' {
      assert ([""] + parts)[1..] == parts;
      assert "" + "/" + JoinSlash(parts) == [c] + JoinSlash(parts);
    } else {
      var grown := Grown(c, parts);
      assert grown[0] == [c] + parts[0] && grown[1..] == parts[1..];
      assert parts[0] in parts && forall part :: part in parts[1..] ==> part in parts;
      if |parts| > 1 {
        Regroup([c], parts[0], "/" + JoinSlash(parts[1..]));
        assert parts[0] + "/" + JoinSlash(parts[1..]) == parts[0] + ("/" + JoinSlash(parts[1..]));
        assert ([c] + parts[0]) + "/" + JoinSlash(parts[1..]) == ([c] + parts[0]) + ("/" + JoinSlash(parts[1..]));
      }
    }
  }
}
