/** The signing helper: the JWS Compact Serialization of section 7.1 of RFC 7515
    (`header.payload.signature`, each segment base64url as in section 5 of RFC 4648)
    and this system's JSON envelope, which loosely follows the General JWS JSON
    Serialization of section 7.2.1 of RFC 7515 except that `protected` holds the
    header as a JSON object and `payload` holds the decoded text.

    Base64url, JSON parsing and printing, PEM parsing, ES512 signing and
    verification, JWE decryption and MQTT topic matching are library calls; the
    model receives them as the function-valued fields of a `Library` and states
    the laws it relies on (`Lawful`, `HeaderStable`) as hypotheses of the lemmas
    that need them. */
module JwsHelper {
  import opened Common

  /** A JSON value as json-simple builds it; `JNumber` is an integral `Long`. */
  datatype Json =
    | JNull
    | JBool(b: bool)
    | JNumber(n: int)
    | JDouble(literal: string)   // a number with a fraction or an exponent, which json-simple reads as a `Double`; kept as its text
    | JString(s: string)
    | JArray(items: seq<Json>)
    | JObject(fields: map<string, Json>)

  /** A parsed EC public key (`ECPublicKey`); only the verifier looks inside it. */
  datatype EcPublicKey = EcPublicKey(point: string)

  /** A parsed EC private key (`ECPrivateKey`); only the signer looks inside it. */
  datatype EcPrivateKey = EcPrivateKey(scalar: string)

  /** The library calls the core makes, as values. */
  datatype Library = Library(
    base64UrlEncode: string -> string,                           // Base64URL.encode(String)
    base64UrlDecode: string -> string,                           // new Base64URL(s).decodeToString()
    parseJson: string -> Option<Json>,                           // JSONParser.parse; None: ParseException
    writeJson: Json -> string,                                   // JSONObject.toJSONString()
    headerJson: map<string, Json> -> string,                     // the JWS library's own printing of a header
    parsePublicKey: string -> Option<EcPublicKey>,               // JwsHelper.createEcPublicKey; None: it throws
    parsePrivateKey: string -> Option<EcPrivateKey>,             // PEM key-pair parsing; None: the PEM does not parse or the ES512 signer rejects the key
    sign: (string, EcPrivateKey) -> string,                      // ES512 signature bytes over the signing input; a key the signer rejects is already None above
    verify: (string, string, string, EcPublicKey) -> Result<bool>, // new JWSObject(h, p, s).verify(ECDSAVerifier)
    decrypt: (string, string) -> Result<string>,                 // JwsHelper.decryptMessage
    topicMatches: (string, string) -> bool                       // MqttTopic.isMatched(pattern, topic)
  )

  /** The laws of base64url and JSON the round trip rests on: decoding undoes
      encoding, encoded text never holds a '.', only the empty text encodes to the
      empty text, and parsing undoes printing. */
  ghost predicate Lawful(lib: Library) {
    && (forall s :: lib.base64UrlDecode(lib.base64UrlEncode(s)) == s)
    && (forall s :: '.' !in lib.base64UrlEncode(s))
    && (forall s :: s != "" ==> lib.base64UrlEncode(s) != "")
    && (forall j :: lib.parseJson(lib.writeJson(j)) == Some(j))
  }

  /** json-simple prints a header object exactly as the JWS library printed it.
      json-simple's `JSONObject` is a `HashMap`, so this is an assumption about
      key order, not a fact. */
  ghost predicate HeaderStable(lib: Library, header: map<string, Json>) {
    lib.writeJson(JObject(header)) == lib.headerJson(header)
  }

  /** An ES512 signature is never empty. */
  ghost predicate SignerNonEmpty(lib: Library) {
    forall input, key :: lib.sign(input, key) != ""
  }

  // ---------------------------------------------------------------------------
  // `String.split("\\.")`

  /** The segments joined back with '.'. */
  function Join(parts: seq<string>): (s: string)
    requires |parts| >= 1
  {
    if |parts| == 1 then parts[0] else parts[0] + "." + Join(parts[1..])
  }

  /** Every segment between two dots, empty ones included. */
  function SplitAll(s: string): (parts: seq<string>)
    ensures |parts| >= 1
    ensures Join(parts) == s
    ensures forall i :: 0 <= i < |parts| ==> '.' !in parts[i]
  {
    if |s| == 0 then [""]
    else
      var rest := SplitAll(s[1..]);
      if s[0] == '.' then
        assert s == "." + s[1..];
        [""] + rest
      else
        var parts := [[s[0]] + rest[0]] + rest[1..];
        assert parts[1..] == rest[1..];
        assert Join(parts) == [s[0]] + Join(rest) by {
          if |rest| > 1 {
            assert Join(parts) == ([s[0]] + rest[0]) + "." + Join(rest[1..]);
          }
        }
        assert s == [s[0]] + s[1..];
        parts
  }

  /** Removes the empty segments at the end, as `split` with limit 0 does. */
  function DropTrailingEmpty(parts: seq<string>): (r: seq<string>)
    ensures |r| <= |parts| && r == parts[..|r|]
    ensures forall i :: |r| <= i < |parts| ==> parts[i] == ""
    ensures |r| == 0 || r[|r| - 1] != ""
  {
    if |parts| > 0 && parts[|parts| - 1] == "" then DropTrailingEmpty(parts[..|parts| - 1]) else parts
  }

  /** Java's `s.split("\\.")`: a text without a dot is its own single segment;
      otherwise the segments between dots, less the empty ones at the end. */
  function Split(s: string): (parts: seq<string>)
    ensures forall i :: 0 <= i < |parts| ==> '.' !in parts[i]
  {
    if '.' !in s then [s] else DropTrailingEmpty(SplitAll(s))
  }

  lemma {:induction false} SplitAllNoDot(s: string)
    requires '.' !in s
    ensures SplitAll(s) == [s]
  {
    if |s| > 0 {
      SplitAllNoDot(s[1..]);
      assert [s[0]] + s[1..] == s;
    }
  }

  /** Splitting at every dot distributes over joining two texts with a dot. */
  lemma {:induction false} SplitAllConcat(x: string, y: string)
    ensures SplitAll(x + "." + y) == SplitAll(x) + SplitAll(y)
    decreases |x|
  {
    var s := x + "." + y;
    if |x| == 0 {
      assert s[0] == '.' && s[1..] == y;
    } else {
      assert s[0] == x[0];
      assert s[1..] == x[1..] + "." + y;
      SplitAllConcat(x[1..], y);
    }
  }

  /** A compact string whose three segments hold no dot, and whose last segment is
      not empty, splits into exactly those three segments. */
  lemma SplitThree(a: string, b: string, c: string)
    requires '.' !in a && '.' !in b && '.' !in c && c != ""
    ensures Split(a + "." + b + "." + c) == [a, b, c]
  {
    var s := a + "." + b + "." + c;
    SplitAllConcat(a + "." + b, c);
    SplitAllConcat(a, b);
    SplitAllNoDot(a);
    SplitAllNoDot(b);
    SplitAllNoDot(c);
    assert SplitAll(s) == [a, b, c];
    assert s[|a|] == '.';
  }

  /** Segments after the third never reach the parts read: a fourth segment (or
      more) is ignored. */
  lemma SplitKeepsFirstThree(a: string, b: string, c: string, rest: string)
    requires '.' !in a && '.' !in b && '.' !in c && c != ""
    ensures var parts := Split(a + "." + b + "." + c + "." + rest);
            |parts| >= 3 && parts[..3] == [a, b, c]
  {
    var s := a + "." + b + "." + c + "." + rest;
    SplitAllConcat(a + "." + b + "." + c, rest);
    SplitAllConcat(a + "." + b, c);
    SplitAllConcat(a, b);
    SplitAllNoDot(a);
    SplitAllNoDot(b);
    SplitAllNoDot(c);
    var all := SplitAll(s);
    assert all == [a, b, c] + SplitAll(rest);
    assert s[|a|] == '.';
    DropTrailingKeeps(all, 2);
  }

  /** A non-empty segment, and every segment before it, survive the dropping of
      trailing empty segments. */
  lemma DropTrailingKeeps(parts: seq<string>, k: nat)
    requires k < |parts| && parts[k] != ""
    ensures |DropTrailingEmpty(parts)| > k
    ensures DropTrailingEmpty(parts)[..k + 1] == parts[..k + 1]
  {
    var r := DropTrailingEmpty(parts);
    assert r == parts[..|r|];
  }

  // ---------------------------------------------------------------------------
  // The JSON envelope

  /** The parts of an envelope that are read: the payload text, the first
      signature's protected header and its signature text (`None` when absent). */
  datatype SignedEnvelope = SignedEnvelope(payload: string, header: map<string, Json>, signature: Option<string>)

  /** `(String) o.get(key)`: absent and JSON null read as Java `null`; any other
      non-string value is a ClassCastException. */
  function StringField(o: map<string, Json>, key: string): (r: Result<Option<string>>)
    ensures r == Success(None) <==> key !in o || o[key] == JNull
    ensures key in o && o[key].JString? ==> r == Success(Some(o[key].s))
    ensures r.Failure? <==> key in o && o[key] != JNull && !o[key].JString?
  {
    if key !in o || o[key] == JNull then Success(None)
    else if o[key].JString? then Success(Some(o[key].s))
    else Failure(MalformedEnvelope)
  }

  /** The envelope a compact string becomes: `{payload, signatures: [{protected, signature}]}`. */
  function BuildEnvelope(header: Json, payload: string, signature: string): (j: Json)
  {
    JObject(map[
      "payload" := JString(payload),
      "signatures" := JArray([JObject(map["protected" := header, "signature" := JString(signature)])])])
  }

  /** Reads an envelope the way `jsonToCompact` and `validateMessage` do: the
      value must be an object whose `payload` is a string and whose
      `signatures[0]` is an object holding an object `protected`; `signature`
      may be absent. Every other shape throws (ClassCastException,
      NullPointerException or IndexOutOfBoundsException). */
  function EnvelopeFields(v: Json): (r: Result<SignedEnvelope>)
    ensures r.Success? ==>
      && v.JObject? && "payload" in v.fields && v.fields["payload"] == JString(r.value.payload)
      && "signatures" in v.fields && v.fields["signatures"].JArray?
      && |v.fields["signatures"].items| >= 1
      && var first := v.fields["signatures"].items[0];
         && first.JObject? && "protected" in first.fields
         && first.fields["protected"] == JObject(r.value.header)
         && StringField(first.fields, "signature") == Success(r.value.signature)
    ensures r.Failure? ==> r.error == MalformedEnvelope
  {
    if !v.JObject? then Failure(MalformedEnvelope)
    else
      var payload :- StringField(v.fields, "payload");
      if "signatures" !in v.fields || !v.fields["signatures"].JArray? || |v.fields["signatures"].items| == 0 then
        Failure(MalformedEnvelope)
      else
        var first := v.fields["signatures"].items[0];
        if !first.JObject? || "protected" !in first.fields || !first.fields["protected"].JObject? then
          Failure(MalformedEnvelope)
        else
          var signature :- StringField(first.fields, "signature");
          if payload.None? then Failure(MalformedEnvelope)
          else Success(SignedEnvelope(payload.value, first.fields["protected"].fields, signature))
  }

  /** Parses the envelope text and reads its fields. */
  function ReadEnvelope(lib: Library, json: string): (r: Result<SignedEnvelope>)
  {
    match lib.parseJson(json)
    case None => Failure(JsonParseError)
    case Some(v) => EnvelopeFields(v)
  }

  /** Java's string concatenation writes a `null` reference as "null". */
  function JavaString(s: Option<string>): (t: string)
  {
    match s
    case None => "null"
    case Some(x) => x
  }

  /** `b64url(header) + "." + b64url(payload) + "." + signature`. */
  function CompactOf(lib: Library, env: SignedEnvelope): (c: string)
  {
    lib.base64UrlEncode(lib.writeJson(JObject(env.header))) + "." + lib.base64UrlEncode(env.payload)
      + "." + JavaString(env.signature)
  }

  /** `JwsHelper.jsonToCompact`. */
  function JsonToCompact(lib: Library, json: string): (r: Result<string>)
  {
    var env :- ReadEnvelope(lib, json);
    Success(CompactOf(lib, env))
  }

  /** `JwsHelper.compactToJson`: decodes the first two segments, parses the header
      text (json-simple returns `null` for the text "null", which is stored as is),
      and prints the one-signature envelope. */
  function CompactToJson(lib: Library, compact: string): (r: Result<string>)
  {
    var parts := Split(compact);
    if |parts| < 3 then Failure(IndexOutOfBounds)
    else
      var header := lib.base64UrlDecode(parts[0]);
      var payload := lib.base64UrlDecode(parts[1]);
      var signature := parts[2];
      match lib.parseJson(header)
      case None => Failure(JsonParseError)
      case Some(h) =>
        if h.JObject? || h.JNull? then Success(lib.writeJson(BuildEnvelope(h, payload, signature)))
        else Failure(ClassCast)
  }

  /** `JwsHelper.verifySignatureCompact`: parts 0, 1 and 2 of the split are the
      header, payload and signature segments handed to the verifier. */
  function VerifySignatureCompact(lib: Library, compact: string, key: EcPublicKey): (r: Result<bool>)
    ensures |Split(compact)| < 3 ==> r == Failure(IndexOutOfBounds)
  {
    var parts := Split(compact);
    if |parts| < 3 then Failure(IndexOutOfBounds)
    else lib.verify(parts[0], parts[1], parts[2], key)
  }

  /** `JwsHelper.verifySignature`: the envelope is turned back into compact form
      and verified. */
  function VerifySignature(lib: Library, json: string, key: EcPublicKey): (r: Result<bool>)
  {
    var compact :- JsonToCompact(lib, json);
    VerifySignatureCompact(lib, compact, key)
  }

  // ---------------------------------------------------------------------------
  // Signing

  const Es512: string := "ES512"

  /** The protected header `signMessageToCompact` builds: algorithm, signing time
      in epoch milliseconds and a random message id. */
  function SignedHeader(timestamp: int, messageId: string): (h: map<string, Json>)
  {
    map["alg" := JString(Es512), "timestamp" := JNumber(timestamp), "messageid" := JString(messageId)]
  }

  predicate IsAlphanumeric(c: char) {
    ('a' <= c <= 'z') || ('A' <= c <= 'Z') || ('0' <= c <= '9')
  }

  /** What `RandomStringUtils.randomAlphanumeric(12)` returns. */
  predicate IsMessageId(s: string) {
    |s| == 12 && forall i :: 0 <= i < |s| ==> IsAlphanumeric(s[i])
  }

  /** `JwsHelper.signMessageToCompact`, with the clock reading `now` and the random
      message id `nonce` as parameters. */
  function SignMessageToCompact(lib: Library, message: string, privateKeyPem: string, now: int, nonce: string): (r: Result<string>)
  {
    match lib.parsePrivateKey(privateKeyPem)
    case None => Failure(KeyError)
    case Some(key) =>
      var header := lib.base64UrlEncode(lib.headerJson(SignedHeader(now, nonce)));
      var payload := lib.base64UrlEncode(message);
      var signature := lib.base64UrlEncode(lib.sign(header + "." + payload, key));
      Success(header + "." + payload + "." + signature)
  }

  /** `JwsHelper.signMessage`: the signed compact string as an envelope. */
  function SignMessage(lib: Library, message: string, privateKeyPem: string, now: int, nonce: string): (r: Result<string>)
  {
    var compact :- SignMessageToCompact(lib, message, privateKeyPem, now, nonce);
    CompactToJson(lib, compact)
  }
}

/** Properties of the compact <-> envelope transform. */
module JwsProperties {
  import opened Common
  import opened JwsHelper

  /** Reading back a built envelope yields exactly the three values it was built
      from: the signature text is carried verbatim. */
  lemma EnvelopeFieldsOfBuild(header: map<string, Json>, payload: string, signature: string)
    ensures EnvelopeFields(BuildEnvelope(JObject(header), payload, signature))
         == Success(SignedEnvelope(payload, header, Some(signature)))
  {
    var v := BuildEnvelope(JObject(header), payload, signature);
    assert v.fields["signatures"].items[0].fields["signature"] == JString(signature);
  }

  /** Only `payload` and `signatures[0]` are consulted: envelopes that agree on
      those read the same, whatever else the `signatures` array holds. */
  lemma OnlyFirstSignatureRead(o1: map<string, Json>, o2: map<string, Json>)
    requires ("payload" in o1) == ("payload" in o2)
    requires "payload" in o1 ==> o1["payload"] == o2["payload"]
    requires "signatures" in o1 && o1["signatures"].JArray? && |o1["signatures"].items| >= 1
    requires "signatures" in o2 && o2["signatures"].JArray? && |o2["signatures"].items| >= 1
    requires o1["signatures"].items[0] == o2["signatures"].items[0]
    ensures EnvelopeFields(JObject(o1)) == EnvelopeFields(JObject(o2))
  {
    assert StringField(o1, "payload") == StringField(o2, "payload");
  }

  /** Under the base64url laws, a compact string rebuilt from an envelope whose
      signature text holds no '.' and is not empty splits into exactly three
      segments: the encoded header, the encoded payload and the signature. */
  lemma CompactOfSplits(lib: Library, env: SignedEnvelope)
    requires Lawful(lib)
    requires '.' !in JavaString(env.signature) && JavaString(env.signature) != ""
    ensures Split(CompactOf(lib, env))
         == [lib.base64UrlEncode(lib.writeJson(JObject(env.header))), lib.base64UrlEncode(env.payload), JavaString(env.signature)]
  {
    SplitThree(lib.base64UrlEncode(lib.writeJson(JObject(env.header))), lib.base64UrlEncode(env.payload), JavaString(env.signature));
  }

  /** The round trip `jsonToCompact(compactToJson(c)) == c` for every compact
      string made of an encoded header text that json-simple re-prints unchanged,
      an encoded payload and a non-empty signature segment without '.'. */
  lemma CompactJsonRoundTrip(lib: Library, headerText: string, header: map<string, Json>, payload: string, signature: string)
    requires Lawful(lib)
    requires lib.parseJson(headerText) == Some(JObject(header))
    requires lib.writeJson(JObject(header)) == headerText
    requires '.' !in signature && signature != ""
    ensures var compact := lib.base64UrlEncode(headerText) + "." + lib.base64UrlEncode(payload) + "." + signature;
            && CompactToJson(lib, compact).Success?
            && ReadEnvelope(lib, CompactToJson(lib, compact).value) == Success(SignedEnvelope(payload, header, Some(signature)))
            && JsonToCompact(lib, CompactToJson(lib, compact).value) == Success(compact)
  {
    var h, p := lib.base64UrlEncode(headerText), lib.base64UrlEncode(payload);
    var compact := h + "." + p + "." + signature;
    SplitThree(h, p, signature);
    var envelope := BuildEnvelope(JObject(header), payload, signature);
    assert CompactToJson(lib, compact) == Success(lib.writeJson(envelope));
    assert lib.parseJson(lib.writeJson(envelope)) == Some(envelope);
    EnvelopeFieldsOfBuild(header, payload, signature);
    assert ReadEnvelope(lib, lib.writeJson(envelope)) == Success(SignedEnvelope(payload, header, Some(signature)));
  }

  /** Every string `signMessageToCompact` produces survives the round trip
      through the envelope, provided json-simple re-prints the header exactly as
      the JWS library printed it. */
  lemma SignedCompactRoundTrip(lib: Library, message: string, privateKeyPem: string, now: int, nonce: string)
    requires Lawful(lib) && SignerNonEmpty(lib)
    requires HeaderStable(lib, SignedHeader(now, nonce))
    requires SignMessageToCompact(lib, message, privateKeyPem, now, nonce).Success?
    ensures var compact := SignMessageToCompact(lib, message, privateKeyPem, now, nonce).value;
            && SignMessage(lib, message, privateKeyPem, now, nonce).Success?
            && JsonToCompact(lib, SignMessage(lib, message, privateKeyPem, now, nonce).value) == Success(compact)
  {
    var key := lib.parsePrivateKey(privateKeyPem).value;
    var headerText := lib.headerJson(SignedHeader(now, nonce));
    var h, p := lib.base64UrlEncode(headerText), lib.base64UrlEncode(message);
    var raw := lib.sign(h + "." + p, key);
    assert raw != "";
    assert lib.parseJson(lib.writeJson(JObject(SignedHeader(now, nonce)))) == Some(JObject(SignedHeader(now, nonce)));
    CompactJsonRoundTrip(lib, headerText, SignedHeader(now, nonce), message, lib.base64UrlEncode(raw));
  }

  /** A signed message reads back as an envelope carrying the message text as
      its payload and the header the signer built. */
  lemma SignedEnvelopeReads(lib: Library, message: string, privateKeyPem: string, now: int, nonce: string)
    requires Lawful(lib) && SignerNonEmpty(lib)
    requires HeaderStable(lib, SignedHeader(now, nonce))
    requires SignMessageToCompact(lib, message, privateKeyPem, now, nonce).Success?
    ensures SignMessage(lib, message, privateKeyPem, now, nonce).Success?
    ensures var env := ReadEnvelope(lib, SignMessage(lib, message, privateKeyPem, now, nonce).value);
            env.Success? && env.value.payload == message && env.value.header == SignedHeader(now, nonce)
  {
    var key := lib.parsePrivateKey(privateKeyPem).value;
    var headerText := lib.headerJson(SignedHeader(now, nonce));
    var h, p := lib.base64UrlEncode(headerText), lib.base64UrlEncode(message);
    var raw := lib.sign(h + "." + p, key);
    assert raw != "";
    assert lib.parseJson(lib.writeJson(JObject(SignedHeader(now, nonce)))) == Some(JObject(SignedHeader(now, nonce)));
    CompactJsonRoundTrip(lib, headerText, SignedHeader(now, nonce), message, lib.base64UrlEncode(raw));
  }

  /** The header of a signed message, as a receiver decodes it, carries the
      algorithm ES512, the signing time and a 12-character alphanumeric id. */
  lemma SignedHeaderFields(lib: Library, message: string, privateKeyPem: string, now: int, nonce: string)
    requires Lawful(lib) && SignerNonEmpty(lib)
    requires HeaderStable(lib, SignedHeader(now, nonce))
    requires IsMessageId(nonce)
    requires SignMessageToCompact(lib, message, privateKeyPem, now, nonce).Success?
    ensures var parts := Split(SignMessageToCompact(lib, message, privateKeyPem, now, nonce).value);
            && |parts| == 3
            && lib.parseJson(lib.base64UrlDecode(parts[0])).Some?
            && var header := lib.parseJson(lib.base64UrlDecode(parts[0])).value;
               && header.JObject?
               && "alg" in header.fields && header.fields["alg"] == JString("ES512")
               && "timestamp" in header.fields && header.fields["timestamp"] == JNumber(now)
               && "messageid" in header.fields && header.fields["messageid"].JString?
               && IsMessageId(header.fields["messageid"].s)
  {
    var key := lib.parsePrivateKey(privateKeyPem).value;
    var headerText := lib.headerJson(SignedHeader(now, nonce));
    var h, p := lib.base64UrlEncode(headerText), lib.base64UrlEncode(message);
    var raw := lib.sign(h + "." + p, key);
    assert raw != "";
    SplitThree(h, p, lib.base64UrlEncode(raw));
    assert lib.base64UrlDecode(h) == headerText;
    assert lib.parseJson(lib.writeJson(JObject(SignedHeader(now, nonce)))) == Some(JObject(SignedHeader(now, nonce)));
  }

  /** `verifySignatureCompact` hands the verifier the three segments of a
      well-formed compact string. */
  lemma VerifyCompactSegments(lib: Library, a: string, b: string, c: string, key: EcPublicKey)
    requires '.' !in a && '.' !in b && '.' !in c && c != ""
    ensures VerifySignatureCompact(lib, a + "." + b + "." + c, key) == lib.verify(a, b, c, key)
  {
    SplitThree(a, b, c);
  }

  /** Segments after the third are ignored by `verifySignatureCompact`. */
  lemma VerifyCompactIgnoresExtraSegments(lib: Library, a: string, b: string, c: string, rest: string, key: EcPublicKey)
    requires '.' !in a && '.' !in b && '.' !in c && c != ""
    ensures VerifySignatureCompact(lib, a + "." + b + "." + c + "." + rest, key) == lib.verify(a, b, c, key)
  {
    SplitKeepsFirstThree(a, b, c, rest);
  }

  /** An empty signature segment vanishes in the split (trailing empty strings
      are dropped), so `parts[2]` throws. */
  lemma EmptySignatureSegmentThrows(lib: Library, a: string, b: string, key: EcPublicKey)
    requires '.' !in a && '.' !in b
    ensures VerifySignatureCompact(lib, a + "." + b + ".", key) == Failure(IndexOutOfBounds)
  {
    var s := a + "." + b + ".";
    assert s == a + "." + b + "." + "";
    SplitAllConcat(a + "." + b, "");
    SplitAllConcat(a, b);
    SplitAllNoDot(a);
    SplitAllNoDot(b);
    var all := SplitAll(s);
    assert all == [a, b, ""];
    assert s[|a|] == '.';
    assert |DropTrailingEmpty(all)| < 3;
  }
}
