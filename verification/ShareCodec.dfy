/** Blueprint share codes: `DSHBP1:J:` or `DSHBP1:Z:` and a base64url payload. */
module ShareCodec {
  import opened Basics
  import opened Base64Url
  import Utf8

  const JSON_MAX_BYTES := 1024 * 1024
  const SHARE_MAX_BYTES := 2 * 1024 * 1024
  const SHARE_PREFIX := "DSHBP1:"

  datatype Encoding = J | Z
  datatype Mode = OnlyJ | OnlyZ | Shortest

  datatype ShareError =
    | ShareTooLarge | InvalidShare | JsonTooLarge | Base64 | Deflate | Bom | BadUtf8 | InvalidBlueprint

  datatype Inflated = Stream(bytes: seq<Byte>, consumed: nat) | OutputTooLarge | Broken

  /** The libraries below the codec: JSON text and raw DEFLATE (RFC 1951). */
  datatype Layers<!B> = Layers(
    stringify: B -> string,
    parse: string -> Option<B>,
    deflate: seq<Byte> -> seq<Byte>,
    inflate: seq<Byte> -> Inflated)

  /** What is taken of them: they are inverse pairs, an object prints from brace
      to brace, and a DEFLATE stream is never empty. */
  ghost predicate Faithful<B(!new)>(layers: Layers<B>) {
    && (forall b :: var text := layers.stringify(b);
          |text| >= 2 && text[0] == '{' && text[|text| - 1] == '}')
    && (forall b :: |Utf8.Encode(layers.stringify(b))| <= JSON_MAX_BYTES ==> layers.parse(layers.stringify(b)) == Some(b))
    && (forall bytes :: layers.deflate(bytes) != [])
    && (forall bytes :: |bytes| <= JSON_MAX_BYTES ==>
          layers.inflate(layers.deflate(bytes)) == Stream(bytes, |layers.deflate(bytes)|))
  }

  // ---- outer white space ----

  predicate IsOuterWs(c: char) { c == ' ' || c == '\t' || c == '\r' || c == '\n' }

  ghost predicate AllOuterWs(text: string) { forall i :: 0 <= i < |text| ==> IsOuterWs(text[i]) }

  /** Neither end is white space. */
  ghost predicate Trimmed(text: string) {
    text != "" ==> !IsOuterWs(text[0]) && !IsOuterWs(text[|text| - 1])
  }

  function TrimFront(text: string): string {
    if text != "" && IsOuterWs(text[0]) then TrimFront(text[1..]) else text
  }

  function TrimBack(text: string): string {
    if text != "" && IsOuterWs(text[|text| - 1]) then TrimBack(text[..|text| - 1]) else text
  }

  function TrimShareText(text: string): string { TrimBack(TrimFront(text)) }

  method TrimInPlace(text: string) returns (trimmed: string)
    ensures trimmed == TrimShareText(text)
  {
    var start, end := 0, |text|;
    while start < end && IsOuterWs(text[start])
      invariant start <= end == |text|
      invariant TrimFront(text) == TrimFront(text[start..])
    {
      assert text[start..][1..] == text[start + 1..];
      start := start + 1;
    }
    assert TrimFront(text) == text[start..] == text[start..end];
    while end > start && IsOuterWs(text[end - 1])
      invariant start <= end <= |text|
      invariant TrimBack(text[start..]) == TrimBack(text[start..end])
    {
      assert text[start..end][..end - start - 1] == text[start..end - 1];
      end := end - 1;
    }
    return text[start..end];
  }

  lemma {:induction false} TrimFrontOuter(w: string, text: string)
    requires AllOuterWs(w) && (text == "" || !IsOuterWs(text[0]))
    ensures TrimFront(w + text) == text
  {
    if w == "" {
      assert w + text == text;
    } else {
      TrimFrontOuter(w[1..], text);
      assert (w + text)[1..] == w[1..] + text;
    }
  }

  lemma {:induction false} TrimBackOuter(text: string, w: string)
    requires AllOuterWs(w) && (text == "" || !IsOuterWs(text[|text| - 1]))
    ensures TrimBack(text + w) == text
  {
    if w == "" {
      assert text + w == text;
    } else {
      var shorter := w[..|w| - 1];
      TrimBackOuter(text, shorter);
      assert (text + w)[..|text + w| - 1] == text + shorter;
    }
  }

  /** Whatever white space is put around a text that has none at its ends is removed. */
  lemma TrimOuter(w1: string, text: string, w2: string)
    requires AllOuterWs(w1) && AllOuterWs(w2) && text != "" && Trimmed(text)
    ensures TrimShareText(w1 + text + w2) == text
  {
    assert w1 + text + w2 == w1 + (text + w2);
    TrimFrontOuter(w1, text + w2);
    TrimBackOuter(text, w2);
  }

  lemma {:induction false} TrimFrontCuts(text: string) returns (w: string)
    ensures text == w + TrimFront(text) && forall c :: c in w ==> c in " \t\r\n"
    ensures TrimFront(text) != "" ==> TrimFront(text)[0] !in " \t\r\n"
  {
    if text != "" && IsOuterWs(text[0]) {
      var rest := TrimFrontCuts(text[1..]);
      w := [text[0]] + rest;
    } else {
      w := "";
    }
  }

  lemma {:induction false} TrimBackCuts(text: string) returns (w: string)
    ensures text == TrimBack(text) + w && forall c :: c in w ==> c in " \t\r\n"
    ensures TrimBack(text) != "" ==> TrimBack(text)[|TrimBack(text)| - 1] !in " \t\r\n" && TrimBack(text)[0] == text[0]
  {
    if text != "" && IsOuterWs(text[|text| - 1]) {
      var rest := TrimBackCuts(text[..|text| - 1]);
      w := rest + [text[|text| - 1]];
    } else {
      w := "";
    }
  }

  /** What is cut off at the two ends is spaces, tabs, CR and LF, and none is left there. */
  lemma TrimCuts(text: string) returns (w1: string, w2: string)
    ensures var r := TrimShareText(text);
            && text == w1 + r + w2 && (forall c :: c in w1 + w2 ==> c in " \t\r\n")
            && (r != "" ==> r[0] !in " \t\r\n" && r[|r| - 1] !in " \t\r\n")
  {
    w1 := TrimFrontCuts(text);
    w2 := TrimBackCuts(TrimFront(text));
  }

  // ---- encoding ----

  function EncodingName(encoding: Encoding): string { if encoding.J? then "J" else "Z" }

  function Payload<B>(layers: Layers<B>, encoding: Encoding, bytes: seq<Byte>): seq<Byte> {
    if encoding.J? then bytes else layers.deflate(bytes)
  }

  function EncodeShare<B>(layers: Layers<B>, encoding: Encoding, json: string): Result<string, ShareError> {
    var bytes := Utf8.Encode(json);
    if |bytes| > JSON_MAX_BYTES then Err(JsonTooLarge)
    else Ok(SHARE_PREFIX + EncodingName(encoding) + ":" + EncodeBase64url(Payload(layers, encoding, bytes)))
  }

  function EncodeBlueprint<B>(layers: Layers<B>, b: B, mode: Mode): Result<string, ShareError> {
    var json := layers.stringify(b);
    match mode
    case OnlyJ => EncodeShare(layers, J, json)
    case OnlyZ => EncodeShare(layers, Z, json)
    case Shortest =>
      var j := EncodeShare(layers, J, json);
      var z := EncodeShare(layers, Z, json);
      if j.Err? then j else if z.Err? then z
      else if |j.value| <= |z.value| then j else z
  }

  // ---- decoding ----

  function FirstColon(text: string): (i: int)
    ensures -1 <= i < |text|
    ensures i >= 0 ==> text[i] == ':' && forall k :: 0 <= k < i ==> text[k] != ':'
    ensures i < 0 ==> ':' !in text
  {
    if text == "" then -1
    else if text[0] == ':' then 0
    else
      var i := FirstColon(text[1..]);
      if i < 0 then -1 else i + 1
  }

  function InflateExclusive<B>(layers: Layers<B>, input: seq<Byte>): Result<seq<Byte>, ShareError> {
    match layers.inflate(input)
    case OutputTooLarge => Err(JsonTooLarge)
    case Broken => Err(Deflate)
    case Stream(bytes, consumed) => if consumed != |input| then Err(Deflate) else Ok(bytes)
  }

  predicate StartsWithBom(bytes: seq<Byte>) {
    |bytes| >= 3 && bytes[0] == 0xEF && bytes[1] == 0xBB && bytes[2] == 0xBF
  }

  const BOM := 0xFEFF as char

  function DecodeJsonBytes(bytes: seq<Byte>): Result<string, ShareError> {
    if |bytes| > JSON_MAX_BYTES then Err(JsonTooLarge)
    else if StartsWithBom(bytes) then Err(Bom)
    else
      var text := Utf8.Decode(bytes);
      if text.None? then Err(BadUtf8)
      else if text.value != "" && text.value[0] == BOM then Err(Bom)
      else Ok(text.value)
  }

  function DecodeSharePayload<B>(layers: Layers<B>, text: string): Result<string, ShareError>
    requires SHARE_PREFIX <= text
  {
    var rest := text[|SHARE_PREFIX|..];
    var separator := FirstColon(rest);
    if separator <= 0 then Err(InvalidShare)
    else
      DecodePayload(layers, rest[..separator], rest[separator + 1..])
  }

  function DecodePayload<B>(layers: Layers<B>, encoding: string, payload: string): Result<string, ShareError> {
    if encoding != "J" && encoding != "Z" then Err(InvalidShare)
    else
      var bytes := DecodeBase64url(payload);
      if bytes.Err? then Err(Base64) else DecodePacked(layers, encoding, bytes.value)
  }

  function DecodePacked<B>(layers: Layers<B>, encoding: string, packed: seq<Byte>): Result<string, ShareError> {
    var jsonBytes := if encoding == "J" then Ok(packed) else InflateExclusive(layers, packed);
    if jsonBytes.Err? then Err(jsonBytes.error) else DecodeJsonBytes(jsonBytes.value)
  }

  function Parse<B>(layers: Layers<B>, text: string): Result<B, ShareError> {
    var b := layers.parse(text);
    if b.Some? then Ok(b.value) else Err(InvalidBlueprint)
  }

  function DecodeBlueprint<B>(layers: Layers<B>, text: string): Result<B, ShareError> {
    var trimmed := TrimShareText(text);
    if |Utf8.Encode(trimmed)| > SHARE_MAX_BYTES then Err(ShareTooLarge)
    else if SHARE_PREFIX <= trimmed then
      var json := DecodeSharePayload(layers, trimmed);
      if json.Err? then Err(json.error) else Parse(layers, json.value)
    else Parse(layers, trimmed)
  }

  // ---- a share code comes back as its blueprint ----

  function ShareText(encoding: Encoding, bytes: seq<Byte>): string {
    SHARE_PREFIX + EncodingName(encoding) + ":" + EncodeBase64url(bytes)
  }

  /** A code is its seven-character prefix, the encoding letter, a colon and the payload. */
  lemma CodeParts(encoding: Encoding, payload: string)
    ensures var code := SHARE_PREFIX + EncodingName(encoding) + ":" + payload;
            && |code| == 9 + |payload| && SHARE_PREFIX <= code && code[7..] != ""
            && FirstColon(code[7..]) == 1 && code[7..][..1] == EncodingName(encoding)
            && code[7..][2..] == payload
  {
  }

  lemma ShareTextShape(encoding: Encoding, bytes: seq<Byte>)
    requires bytes != []
    ensures var code := ShareText(encoding, bytes);
            |code| == 9 + (4 * |bytes| + 2) / 3 && |Utf8.Encode(code)| == |code| && Trimmed(code)
  {
    EncodedLength(bytes);
    CodeParts(encoding, EncodeBase64url(bytes));
    PlainCode(encoding, EncodeBase64url(bytes));
    Utf8.AsciiLength(ShareText(encoding, bytes));
  }

  /** A code is ASCII and has no white space at its ends. */
  lemma PlainCode(encoding: Encoding, payload: string)
    requires payload != "" && AllInAlphabet(payload)
    ensures var code := SHARE_PREFIX + EncodingName(encoding) + ":" + payload;
            (forall i :: 0 <= i < |code| ==> code[i] as int < 0x80) && Trimmed(code)
  {
    var head := SHARE_PREFIX + EncodingName(encoding) + ":";
    HeadIsPlain(encoding);
    PlainConcat(head, payload);
  }

  lemma HeadIsPlain(encoding: Encoding)
    ensures var head := SHARE_PREFIX + EncodingName(encoding) + ":";
            head != "" && head[0] == 'D' && forall i :: 0 <= i < |head| ==> head[i] as int < 0x80
  {
  }

  lemma PlainConcat(head: string, payload: string)
    requires head != "" && head[0] == 'D' && forall i :: 0 <= i < |head| ==> head[i] as int < 0x80
    requires payload != "" && AllInAlphabet(payload)
    ensures var code := head + payload;
            (forall i :: 0 <= i < |code| ==> code[i] as int < 0x80) && Trimmed(code)
  {
    var code := head + payload;
    forall i | 0 <= i < |code| ensures code[i] as int < 0x80 {
      if i >= |head| {
        assert code[i] == payload[i - |head|] && InAlphabet(payload[i - |head|]);
      }
    }
    assert code[|code| - 1] == payload[|payload| - 1] && InAlphabet(payload[|payload| - 1]);
  }

  lemma PlainJsonHasNoBom(json: string)
    requires json != "" && json[0] == '{'
    ensures Utf8.Encode(json) != [] && Utf8.Encode(json)[0] == 0x7B
  {
  }

  lemma DecodeSharePayloadOfText<B>(layers: Layers<B>, encoding: Encoding, json: string)
    requires json != "" && json[0] == '{' && |Utf8.Encode(json)| <= JSON_MAX_BYTES
    requires layers.deflate(Utf8.Encode(json)) != []
    requires layers.inflate(layers.deflate(Utf8.Encode(json)))
          == Stream(Utf8.Encode(json), |layers.deflate(Utf8.Encode(json))|)
    ensures var text := ShareText(encoding, Payload(layers, encoding, Utf8.Encode(json)));
            SHARE_PREFIX <= text && DecodeSharePayload(layers, text) == Ok(json)
  {
    var bytes := Utf8.Encode(json);
    PlainJsonHasNoBom(json);
    var payload := Payload(layers, encoding, bytes);
    CodeParts(encoding, EncodeBase64url(payload));
    DecodeUndoesEncode(payload);
    Utf8.DecodeUndoesEncode(json);
    assert DecodeJsonBytes(bytes) == Ok(json);
  }

  /** Whatever outer white space surrounds it, an encoded blueprint decodes to
      itself exactly when the code fits the decoder's limit. */
  lemma ShareRoundTrip<B(!new)>(layers: Layers<B>, b: B, mode: Mode, w1: string, w2: string)
    requires Faithful(layers) && AllOuterWs(w1) && AllOuterWs(w2)
    requires EncodeBlueprint(layers, b, mode).Ok?
    ensures var code := EncodeBlueprint(layers, b, mode).value;
            DecodeBlueprint(layers, w1 + code + w2)
            == if |code| <= SHARE_MAX_BYTES then Ok(b) else Err(ShareTooLarge)
  {
    var json := layers.stringify(b);
    var bytes := Utf8.Encode(json);
    var code := EncodeBlueprint(layers, b, mode).value;
    PlainJsonHasNoBom(json);
    var encoding := if EncodeShare(layers, J, json) == Ok(code) then J else Z;
    var payload := Payload(layers, encoding, bytes);
    assert code == ShareText(encoding, payload);
    ShareTextShape(encoding, payload);
    TrimOuter(w1, code, w2);
    DecodeSharePayloadOfText(layers, encoding, json);
  }

  /** The J form of JSON within its limit fits, so the shortest form fits too,
      whatever DEFLATE does to the size. */
  lemma ShortestAlwaysFits<B(!new)>(layers: Layers<B>, b: B, mode: Mode)
    requires Faithful(layers) && mode != OnlyZ
    requires |Utf8.Encode(layers.stringify(b))| <= JSON_MAX_BYTES
    ensures EncodeBlueprint(layers, b, mode).Ok?
    ensures |EncodeBlueprint(layers, b, mode).value| <= 9 + (4 * JSON_MAX_BYTES + 2) / 3 < SHARE_MAX_BYTES
  {
    var bytes := Utf8.Encode(layers.stringify(b));
    PlainJsonHasNoBom(layers.stringify(b));
    ShareTextShape(J, bytes);
  }

  /** A blueprint shared as bare JSON text decodes as well, whenever it is within the JSON limit. */
  lemma JsonRoundTrip<B(!new)>(layers: Layers<B>, b: B, w1: string, w2: string)
    requires Faithful(layers) && AllOuterWs(w1) && AllOuterWs(w2)
    requires |Utf8.Encode(layers.stringify(b))| <= JSON_MAX_BYTES
    ensures DecodeBlueprint(layers, w1 + layers.stringify(b) + w2) == Ok(b)
  {
    TrimOuter(w1, layers.stringify(b), w2);
  }

  lemma DecodedBytesEncode(bytes: seq<Byte>)
    requires DecodeJsonBytes(bytes).Ok?
    ensures Utf8.Encode(DecodeJsonBytes(bytes).value) == bytes && |bytes| <= JSON_MAX_BYTES
  {
    Utf8.EncodeUndoesDecode(bytes);
  }

  lemma DecodedJPayload<B>(layers: Layers<B>, payload: string)
    ensures var code := SHARE_PREFIX + EncodingName(J) + ":" + payload;
            && SHARE_PREFIX <= code
            && (DecodeSharePayload(layers, code).Ok? ==>
                  && DecodeBase64url(payload).Ok?
                  && DecodeSharePayload(layers, code) == DecodeJsonBytes(DecodeBase64url(payload).value))
  {
    CodeParts(J, payload);
  }

  /** Strictness: a J code that decodes is exactly the code its JSON encodes to,
      so no two J codes carry the same JSON. */
  lemma JCodeIsCanonical<B>(layers: Layers<B>, payload: string)
    ensures var code := SHARE_PREFIX + EncodingName(J) + ":" + payload;
            && SHARE_PREFIX <= code
            && (DecodeSharePayload(layers, code).Ok? ==>
                  EncodeShare(layers, J, DecodeSharePayload(layers, code).value) == Ok(code))
  {
    DecodedJPayload(layers, payload);
    if DecodeSharePayload(layers, SHARE_PREFIX + EncodingName(J) + ":" + payload).Ok? {
      AcceptsExactlyEncodings(payload);
      DecodedBytesEncode(DecodeBase64url(payload).value);
    }
  }

  /** The byte test for a byte order mark is enough: the later test on the first
      decoded character never fires. */
  lemma BomTestIsComplete(bytes: seq<Byte>)
    requires Utf8.Decode(bytes).Some? && Utf8.Decode(bytes).value != ""
    ensures Utf8.Decode(bytes).value[0] == BOM <==> StartsWithBom(bytes)
  {
  }

  // ---- what a code is, and what is accepted ----

  /** The text of a code: the letter named, and the JSON bytes or their DEFLATE stream. */
  lemma CodeText<B>(layers: Layers<B>, b: B)
    ensures var bytes := Utf8.Encode(layers.stringify(b));
            && (|bytes| > 1_048_576 ==>
                  EncodeBlueprint(layers, b, OnlyJ) == EncodeBlueprint(layers, b, OnlyZ)
                  == EncodeBlueprint(layers, b, Shortest) == Err(JsonTooLarge))
            && (|bytes| <= 1_048_576 ==>
                  && EncodeBlueprint(layers, b, OnlyJ) == Ok("DSHBP1:" + "J" + ":" + EncodeBase64url(bytes))
                  && EncodeBlueprint(layers, b, OnlyZ) == Ok("DSHBP1:" + "Z" + ":" + EncodeBase64url(layers.deflate(bytes))))
  {
  }

  /** The shortest code is the J or the Z code, no longer than either, and the J code
      when both have one length. */
  lemma ShortestIsShortest<B>(layers: Layers<B>, b: B)
    requires EncodeBlueprint(layers, b, Shortest).Ok?
    ensures EncodeBlueprint(layers, b, OnlyJ).Ok? && EncodeBlueprint(layers, b, OnlyZ).Ok?
    ensures var j, z, code := EncodeBlueprint(layers, b, OnlyJ).value, EncodeBlueprint(layers, b, OnlyZ).value,
                              EncodeBlueprint(layers, b, Shortest).value;
            (code == j || code == z) && |code| <= |j| && |code| <= |z| && (|j| <= |z| ==> code == j)
  {
  }

  /** A payload that carries the JSON: the encoding of its bytes, or of a stream that
      inflates to them and ends where it does; within the limit and without a mark. */
  ghost predicate Carries<B>(layers: Layers<B>, letter: string, payload: string, json: string) {
    var bytes := Utf8.Encode(json);
    && |bytes| <= 1_048_576 && !(json != "" && json[0] == BOM)
    && exists packed: seq<Byte> :: CarriesIn(layers, letter, payload, bytes, packed)
  }

  ghost predicate CarriesIn<B>(layers: Layers<B>, letter: string, payload: string, bytes: seq<Byte>, packed: seq<Byte>) {
    && packed != [] && payload == EncodeBase64url(packed)
    && (if letter == "J" then packed == bytes
        else letter == "Z" && layers.inflate(packed) == Stream(bytes, |packed|))
  }

  lemma BytesDecodeIff(bytes: seq<Byte>, json: string)
    ensures DecodeJsonBytes(bytes) == Ok(json) <==>
              bytes == Utf8.Encode(json) && |bytes| <= 1_048_576 && !(json != "" && json[0] == BOM)
  {
    if DecodeJsonBytes(bytes) == Ok(json) {
      DecodedBytesEncode(bytes);
    }
    if bytes == Utf8.Encode(json) {
      Utf8.DecodeUndoesEncode(json);
      if json != "" {
        BomTestIsComplete(bytes);
      } else {
        assert bytes == [];
      }
    }
  }

  /** The letter and the payload a code is cut into. */
  lemma CodeDecodes<B>(layers: Layers<B>, letter: string, payload: string, json: string)
    requires letter != "" && ':' !in letter
    ensures var code := SHARE_PREFIX + letter + ":" + payload;
            SHARE_PREFIX <= code && (DecodeSharePayload(layers, code) == Ok(json) <==> Carries(layers, letter, payload, json))
  {
    LetterParts(letter, payload);
    if letter == "J" || letter == "Z" {
      AcceptsExactlyEncodings(payload);
      var bytes := DecodeBase64url(payload);
      if bytes.Ok? {
        PayloadCarries(layers, letter, payload, bytes.value, json);
      }
    }
  }

  lemma PayloadCarries<B>(layers: Layers<B>, letter: string, payload: string, packed: seq<Byte>, json: string)
    requires (letter == "J" || letter == "Z") && DecodeBase64url(payload) == Ok(packed)
    ensures var jsonBytes := if letter == "J" then Ok(packed) else InflateExclusive(layers, packed);
            (jsonBytes.Ok? && DecodeJsonBytes(jsonBytes.value) == Ok(json)) <==> Carries(layers, letter, payload, json)
  {
    var bytes := Utf8.Encode(json);
    AcceptsExactlyEncodings(payload);
    var jsonBytes := if letter == "J" then Ok(packed) else InflateExclusive(layers, packed);
    if jsonBytes.Ok? {
      BytesDecodeIff(jsonBytes.value, json);
      assert jsonBytes.value == bytes ==> CarriesIn(layers, letter, payload, bytes, packed);
    }
    if Carries(layers, letter, payload, json) {
      var other: seq<Byte> :| CarriesIn(layers, letter, payload, bytes, other);
      DecodeUndoesEncode(other);
    }
  }

  lemma LetterParts(letter: string, payload: string)
    requires letter != "" && ':' !in letter
    ensures var code := SHARE_PREFIX + letter + ":" + payload;
            && SHARE_PREFIX <= code && code[7..] == letter + ":" + payload
            && FirstColon(code[7..]) == |letter| && code[7..][..|letter|] == letter && code[7..][|letter| + 1..] == payload
  {
    var code, rest := SHARE_PREFIX + letter + ":" + payload, letter + ":" + payload;
    assert code == SHARE_PREFIX + rest && code[7..] == rest;
    assert rest[|letter|] == ':' && forall k :: 0 <= k < |letter| ==> rest[k] == letter[k];
  }

  ghost predicate CarriesText<B>(layers: Layers<B>, code: string, json: string) {
    exists letter: string, payload: string :: Writes(code, letter, payload) && Carries(layers, letter, payload, json)
  }

  lemma CodeCut(code: string)
    requires SHARE_PREFIX <= code && FirstColon(code[7..]) > 0
    ensures Writes(code, code[7..][..FirstColon(code[7..])], code[7..][FirstColon(code[7..]) + 1..])
  {
    var rest := code[7..];
    var i := FirstColon(rest);
    assert code == SHARE_PREFIX + rest && rest == rest[..i] + ":" + rest[i + 1..];
    assert code == SHARE_PREFIX + rest[..i] + ":" + rest[i + 1..];
  }

  lemma ShareDecodesIff<B>(layers: Layers<B>, code: string, json: string)
    requires SHARE_PREFIX <= code
    ensures DecodeSharePayload(layers, code) == Ok(json) <==> CarriesText(layers, code, json)
  {
    if DecodeSharePayload(layers, code) == Ok(json) {
      CodeCut(code);
      var rest := code[7..];
      var i := FirstColon(rest);
      CodeDecodes(layers, rest[..i], rest[i + 1..], json);
    }
    if letter: string, payload: string :| Writes(code, letter, payload) && Carries(layers, letter, payload, json) {
      CodeDecodes(layers, letter, payload, json);
    }
  }

  /** What the codec accepts, exactly: within 2 MiB after trimming, a code whose letter
      and payload carry a JSON text, or a bare JSON text, that parses. */
  lemma AcceptsExactly<B>(layers: Layers<B>, text: string, b: B)
    ensures DecodeBlueprint(layers, text) == Ok(b) <==>
              var trimmed := TrimShareText(text);
              && |Utf8.Encode(trimmed)| <= 2_097_152
              && if "DSHBP1:" <= trimmed
                 then exists json :: CarriesText(layers, trimmed, json) && layers.parse(json) == Some(b)
                 else layers.parse(trimmed) == Some(b)
  {
    var trimmed := TrimShareText(text);
    if SHARE_PREFIX <= trimmed {
      forall json ensures DecodeSharePayload(layers, trimmed) == Ok(json) <==> CarriesText(layers, trimmed, json) {
        ShareDecodesIff(layers, trimmed, json);
      }
    }
  }

  ghost predicate Writes(code: string, letter: string, payload: string) {
    letter != "" && ':' !in letter && code == SHARE_PREFIX + letter + ":" + payload
  }

  // ---- why a text is refused ----

  /** The JSON bytes a payload of packed bytes gives, or why it gives none. */
  lemma PackedExactly<B>(layers: Layers<B>, letter: string, packed: seq<Byte>)
    requires packed != [] && (letter == "J" || letter == "Z")
    ensures var r := DecodeSharePayload(layers, SHARE_PREFIX + letter + ":" + EncodeBase64url(packed));
            if letter == "J" then r == DecodeJsonBytes(packed)
            else match layers.inflate(packed)
              case OutputTooLarge => r == Err(JsonTooLarge)
              case Broken => r == Err(Deflate)
              case Stream(bytes, consumed) => r == if consumed != |packed| then Err(Deflate) else DecodeJsonBytes(bytes)
    ensures SHARE_PREFIX <= SHARE_PREFIX + letter + ":" + EncodeBase64url(packed)
  {
    LetterDecodes(layers, letter, EncodeBase64url(packed));
    DecodeUndoesEncode(packed);
  }

  /** The letter first, then the base64url text. */
  lemma LetterExactly<B>(layers: Layers<B>, letter: string, payload: string)
    requires letter != "" && ':' !in letter
    ensures var code := SHARE_PREFIX + letter + ":" + payload;
            && SHARE_PREFIX <= code
            && (DecodeSharePayload(layers, code) == Err(InvalidShare) <==> letter != "J" && letter != "Z")
            && (DecodeSharePayload(layers, code) == Err(Base64) <==>
                  (letter == "J" || letter == "Z") &&
                  forall packed: seq<Byte> :: packed != [] ==> EncodeBase64url(packed) != payload)
  {
    LetterDecodes(layers, letter, payload);
    AcceptsExactlyEncodings(payload);
    PayloadErrors(layers, letter, payload);
  }

  lemma LetterDecodes<B>(layers: Layers<B>, letter: string, payload: string)
    requires letter != "" && ':' !in letter
    ensures var code := SHARE_PREFIX + letter + ":" + payload;
            SHARE_PREFIX <= code && DecodeSharePayload(layers, code) == DecodePayload(layers, letter, payload)
  {
    LetterParts(letter, payload);
  }

  lemma PayloadErrors<B>(layers: Layers<B>, letter: string, payload: string)
    ensures DecodePayload(layers, letter, payload) == Err(InvalidShare) <==> letter != "J" && letter != "Z"
    ensures DecodePayload(layers, letter, payload) == Err(Base64) <==>
              (letter == "J" || letter == "Z") && DecodeBase64url(payload).Err?
    ensures DecodePayload(layers, letter, payload) != Err(ShareTooLarge) &&
            DecodePayload(layers, letter, payload) != Err(InvalidBlueprint)
  {
    var bytes := DecodeBase64url(payload);
    if bytes.Ok? {
      PackedErrors(layers, letter, bytes.value);
    }
  }

  lemma PackedErrors<B>(layers: Layers<B>, letter: string, packed: seq<Byte>)
    ensures var r := DecodePacked(layers, letter, packed);
            r.Err? ==> r.error == JsonTooLarge || r.error == Deflate || r.error == Bom || r.error == BadUtf8
  {
  }

  /** JSON bytes are refused for their size, then for a mark, then as broken UTF-8. */
  lemma BytesExactly(bytes: seq<Byte>)
    ensures DecodeJsonBytes(bytes) == Err(JsonTooLarge) <==> |bytes| > 1_048_576
    ensures DecodeJsonBytes(bytes) == Err(Bom) <==>
              |bytes| <= 1_048_576 && |bytes| >= 3 && bytes[0] == 0xEF && bytes[1] == 0xBB && bytes[2] == 0xBF
    ensures DecodeJsonBytes(bytes) == Err(BadUtf8) <==>
              |bytes| <= 1_048_576 && !(|bytes| >= 3 && bytes[0] == 0xEF && bytes[1] == 0xBB && bytes[2] == 0xBF) &&
              forall text :: Utf8.Encode(text) != bytes
    ensures DecodeJsonBytes(bytes).Err? ==>
              DecodeJsonBytes(bytes).error == JsonTooLarge || DecodeJsonBytes(bytes).error == Bom || DecodeJsonBytes(bytes).error == BadUtf8
  {
    forall text | Utf8.Encode(text) == bytes ensures Utf8.Decode(bytes) == Some(text) {
      Utf8.DecodeUndoesEncode(text);
    }
    if Utf8.Decode(bytes).Some? {
      Utf8.EncodeUndoesDecode(bytes);
      if Utf8.Decode(bytes).value != "" {
        BomTestIsComplete(bytes);
      }
    }
  }

  /** A code without letter or colon is invalid. */
  lemma NoLetter<B>(layers: Layers<B>, code: string)
    requires SHARE_PREFIX <= code && (':' !in code[7..] || code[7] == ':')
    ensures DecodeSharePayload(layers, code) == Err(InvalidShare)
  {
  }

  lemma ShareErrors<B>(layers: Layers<B>, code: string)
    requires SHARE_PREFIX <= code && DecodeSharePayload(layers, code).Err?
    ensures DecodeSharePayload(layers, code).error != ShareTooLarge && DecodeSharePayload(layers, code).error != InvalidBlueprint
  {
    var i := FirstColon(code[7..]);
    if i > 0 {
      PayloadErrors(layers, code[7..][..i], code[7..][i + 1..]);
    }
  }

  /** The whole text is too large before it is anything else. */
  lemma TooLargeExactly<B>(layers: Layers<B>, text: string)
    ensures DecodeBlueprint(layers, text) == Err(ShareTooLarge) <==> |Utf8.Encode(TrimShareText(text))| > 2_097_152
  {
    var trimmed := TrimShareText(text);
    if SHARE_PREFIX <= trimmed && DecodeSharePayload(layers, trimmed).Err? {
      ShareErrors(layers, trimmed);
    }
  }

  /** Within the limit a code's error is handed on, and JSON that does not parse, from a
      code or bare, is no blueprint. */
  lemma TextExactly<B>(layers: Layers<B>, text: string)
    requires |Utf8.Encode(TrimShareText(text))| <= 2_097_152
    ensures var trimmed, r := TrimShareText(text), DecodeBlueprint(layers, text);
            if "DSHBP1:" <= trimmed then
              var json := DecodeSharePayload(layers, trimmed);
              if json.Err? then r == Err(json.error)
              else r == Err(InvalidBlueprint) <==> layers.parse(json.value).None?
            else r == Err(InvalidBlueprint) <==> layers.parse(trimmed).None?
  {
  }
}
