/**
  A signed RPC call from end to end: what the client sends, and what the server
  answers after decoding it, re-encoding its parameters and checking the
  signature over them.
 */
module RpcSigning {
  import opened Bytes
  import opened Wrappers
  import opened HyperCodec

  // ----- comparing signatures -----

  /** Exclusive or of two non-negative integers. */
  function Xor(a: nat, b: nat): nat {
    if a == 0 then b
    else if b == 0 then a
    else (a + b) % 2 + 2 * Xor(a / 2, b / 2)
  }

  /** Inclusive or of two non-negative integers. */
  function Or(a: nat, b: nat): nat {
    if a == 0 then b
    else if b == 0 then a
    else (if a % 2 == 1 || b % 2 == 1 then 1 else 0) + 2 * Or(a / 2, b / 2)
  }

  lemma {:induction false} XorZero(a: nat, b: nat)
    ensures Xor(a, b) == 0 <==> a == b
  {
    if a != 0 && b != 0 {
      XorZero(a / 2, b / 2);
    }
  }

  lemma {:induction false} OrZero(a: nat, b: nat)
    ensures Or(a, b) == 0 <==> a == 0 && b == 0
  {
    if a != 0 && b != 0 {
      OrZero(a / 2, b / 2);
    }
  }

  lemma LongerPrefix(a: seq<nat>, b: seq<nat>, i: nat)
    requires i < |a| == |b|
    ensures a[..i + 1] == b[..i + 1] <==> a[..i] == b[..i] && a[i] == b[i]
  {
    assert a[..i + 1] == a[..i] + [a[i]] && b[..i + 1] == b[..i] + [b[i]];
  }

  /** `timingSafeEqual` over character codes: true exactly on equal strings. */
  method TimingSafeEqual(a: seq<nat>, b: seq<nat>) returns (r: bool)
    ensures r <==> a == b
  {
    hide Xor, Or;
    var diff := Xor(|a|, |b|);
    XorZero(|a|, |b|);
    var maxLen := Max(|a|, |b|);
    var i := 0;
    while i < maxLen
      invariant 0 <= i <= maxLen
      invariant diff == 0 <==> |a| == |b| && a[..Min(i, |a|)] == b[..Min(i, |b|)]
    {
      var charA := if i < |a| then a[i] else 0;
      var charB := if i < |b| then b[i] else 0;
      XorZero(charA, charB);
      OrZero(diff, Xor(charA, charB));
      if |a| == |b| {
        LongerPrefix(a, b, i);
      }
      diff := Or(diff, Xor(charA, charB));
      i := i + 1;
    }
    return diff == 0;
  }

  function Min(a: nat, b: nat): nat {
    if a < b then a else b
  }

  // ----- signatures -----

  /** A lower-case hexadecimal digit. */
  function HexDigit(n: nat): Byte
    requires n < 16
  {
    if n < 10 then 48 + n else 87 + n
  }

  function Hex(d: Data): (r: Text)
    ensures |r| == 2 * |d|
    ensures forall k :: 0 <= k < |r| ==> r[k] <= 102
  {
    if d == [] then [] else [HexDigit(d[0] / 16), HexDigit(d[0] % 16)] + Hex(d[1..])
  }

  /** HMAC-SHA-256 of a message under a key, left uninterpreted. */
  type Mac = (Text, Data) -> Data

  ghost predicate Sha256Sized(mac: Mac) {
    forall key, message :: |mac(key, message)| == 32
  }

  /** `generateRequestSignature`: the query id's bytes, then the parameters' bytes, signed. */
  function Signature(mac: Mac, secret: Text, queryId: Text, params: Data): Text {
    Hex(mac(secret, queryId + params))
  }

  // ----- the client -----

  const QUERY_ID: Text := [113, 117, 101, 114, 121, 73, 100]
  const SIGNATURE: Text := [115, 105, 103, 110, 97, 116, 117, 114, 101]
  const PARAMS: Text := [112, 97, 114, 97, 109, 115]

  function Request(queryId: Text, signature: Text, params: Value): Value {
    Obj([Field(QUERY_ID, Str(queryId)), Field(SIGNATURE, Str(signature)), Field(PARAMS, params)])
  }

  /** The request an honest client builds. */
  function HonestRequest(mac: Mac, secret: Text, queryId: Text, params: Value): Value {
    Request(queryId, Signature(mac, secret, queryId, Enc(params)), params)
  }

  /**
    The call proxy: one scratch slab serves both encodings; None when one of them throws, or the signing,
    for which an empty secret is no key.
   */
  method SendRequest(mac: Mac, secret: Text, queryId: Text, params: Value) returns (r: Option<Data>)
    ensures r.Some? ==> r.value == Enc(HonestRequest(mac, secret, queryId, params))
    ensures |Enc(HonestRequest(mac, secret, queryId, params))| <= MAX_SLAB / 2 && secret != [] ==> r.Some?
    ensures secret == [] ==> r.None?
  {
    ParamsInside(queryId, Signature(mac, secret, queryId, Enc(params)), params);
    var slab := new Byte[256 * 1024](_ => 0);
    var paramsBinary := Encode(params, slab);
    if paramsBinary.None? || secret == [] {
      return None;
    }
    var signature := Signature(mac, secret, queryId, paramsBinary.value);
    r := Encode(Request(queryId, signature, params), slab);
  }

  lemma ParamsInside(queryId: Text, signature: Text, params: Value)
    ensures |Enc(params)| <= |Enc(Request(queryId, signature, params))|
  {
    hide EncText;
    var id, sig, par := Field(QUERY_ID, Str(queryId)), Field(SIGNATURE, Str(signature)), Field(PARAMS, params);
    assert [id, sig, par][1..] == [sig, par] && [sig, par][1..] == [par];
    assert |EncField(par)| <= |EncFields([par])| <= |EncFields([sig, par])| <= |EncFields([id, sig, par])|;
  }

  // ----- the server -----

  datatype Reply = PayloadTooLarge | Forbidden | Response(body: Data)

  /** A procedure: it gets the decoded parameters, None for undefined, and returns None when it throws. */
  type Handler = Option<Value> -> Option<Value>

  datatype Server = Server(
    mac: Mac,
    secret: Text,
    manifest: set<Text>,
    handlers: map<Text, Handler>,
    maxRequestSize: nat,
    coerce: Value -> Option<Text>)

  /** Own property `key`; None for undefined. */
  function Property(v: Value, key: Text): Option<Value> {
    if v.Obj? then PropertyOf(v.fields, key) else None
  }

  function PropertyOf(fields: seq<Field>, key: Text): Option<Value> {
    if fields == [] then None
    else if fields[0].key == key then Some(fields[0].value)
    else PropertyOf(fields[1..], key)
  }

  const UNDEFINED: Text := [117, 110, 100, 101, 102, 105, 110, 101, 100]

  /** The property name the server looks the procedure up by; None when making one throws. */
  function QueryIdOf(server: Server, decoded: Value): Option<Text> {
    match Property(decoded, QUERY_ID)
    case None => Some(UNDEFINED)
    case Some(v) => AsText(v, server.coerce)
  }

  /** The query id's bytes in the signed message: encoding undefined gives none. */
  function SignedId(decoded: Value, queryId: Text): Text {
    if Property(decoded, QUERY_ID).None? then [] else queryId
  }

  /** What is encoded for parameters that may be undefined. */
  function OrNull(params: Option<Value>): Value {
    if params.None? then Null else params.value
  }

  /** The signature check: only a string can equal the expected one, and an empty secret signs nothing. */
  predicate Signed(server: Server, decoded: Value, queryId: Text) {
    var expected := Signature(server.mac, server.secret, SignedId(decoded, queryId),
      Enc(OrNull(Property(decoded, PARAMS))));
    server.secret != [] && Property(decoded, SIGNATURE) == Some(Str(expected))
  }

  /** What a call that passed the checks is answered. */
  function Answer(server: Server, queryId: Text, params: Option<Value>): Reply {
    if queryId !in server.manifest || queryId !in server.handlers then Forbidden
    else
      match server.handlers[queryId](params)
      case None => Forbidden
      case Some(result) => Response(Enc(result))
  }

  predicate TooLarge(server: Server, contentLength: int, body: Data) {
    contentLength > server.maxRequestSize || |body| > server.maxRequestSize
  }

  /** What `handleRequest` answers, when its own encodings stay below the slab limit. */
  function Verdict(server: Server, contentLength: int, body: Data): Reply {
    if TooLarge(server, contentLength, body) then PayloadTooLarge
    else
      match Dec(body, 0, server.coerce)
      case Err(_) => Forbidden
      case Ok(decoded, _) => if decoded == Null then Forbidden else Checked(server, decoded)
  }

  function Checked(server: Server, decoded: Value): Reply {
    match QueryIdOf(server, decoded)
    case None => Forbidden
    case Some(queryId) =>
      if queryId !in server.manifest || !Signed(server, decoded, queryId) then Forbidden
      else Answer(server, queryId, Property(decoded, PARAMS))
  }

  /** The handler's result, if the call gets that far, fits in half the slab limit. */
  predicate ResultFits(server: Server, queryId: Text, params: Option<Value>) {
    queryId in server.handlers && server.handlers[queryId](params).Some? ==>
      |Enc(server.handlers[queryId](params).value)| <= MAX_SLAB / 2
  }

  /** The re-encoded parameters and the handler's result both fit in half the slab limit. */
  predicate EncodingsFit(server: Server, body: Data) {
    match Dec(body, 0, server.coerce)
    case Err(_) => true
    case Ok(decoded, _) =>
      && |Enc(OrNull(Property(decoded, PARAMS)))| <= MAX_SLAB / 2
      && match QueryIdOf(server, decoded)
         case None => true
         case Some(queryId) => ResultFits(server, queryId, Property(decoded, PARAMS))
  }

  /** `handleRequest`: one slab is reused for the parameters and for the response. */
  method HandleRequest(server: Server, contentLength: int, body: Data) returns (r: Reply)
    ensures EncodingsFit(server, body) ==> r == Verdict(server, contentLength, body)
    ensures r != Verdict(server, contentLength, body) ==> r == Forbidden
  {
    hide Enc, Dec;
    if contentLength > server.maxRequestSize || |body| > server.maxRequestSize {
      return PayloadTooLarge;
    }
    var request := Decode(body, server.coerce);
    if request.Failure? || request.value == Null {
      return Forbidden;
    }
    var decoded := request.value;
    var name := QueryIdOf(server, decoded);
    if name.None? || name.value !in server.manifest {
      return Forbidden;
    }
    var queryId := name.value;
    var slab := new Byte[Min(server.maxRequestSize, 32 * 1024)](_ => 0);
    var paramsBinary := Encode(OrNull(Property(decoded, PARAMS)), slab);
    if paramsBinary.None? || server.secret == [] {
      return Forbidden;
    }
    var expected := Signature(server.mac, server.secret, SignedId(decoded, queryId), paramsBinary.value);
    var given := Property(decoded, SIGNATURE);
    if given.None? || !given.value.Str? {
      return Forbidden;
    }
    var same := TimingSafeEqual(given.value.text, expected);
    if !same || queryId !in server.handlers {
      return Forbidden;
    }
    var result := server.handlers[queryId](Property(decoded, PARAMS));
    if result.None? {
      return Forbidden;
    }
    var responseBinary := Encode(result.value, slab);
    if responseBinary.None? {
      return Forbidden;
    }
    return Response(responseBinary.value);
  }

  // ----- honest calls -----

  lemma AsciiSurvives(text: Text)
    requires |text| <= MAX_STRING && forall k :: 0 <= k < |text| ==> text[k] < 0xEF
    ensures TextSurvives(text)
  {
    if |text| >= 3 {
      assert text[..3][0] == text[0];
    }
  }

  lemma RequestProperties(queryId: Text, signature: Text, params: Value)
    ensures var request := Request(queryId, signature, params);
            && Property(request, QUERY_ID) == Some(Str(queryId))
            && Property(request, SIGNATURE) == Some(Str(signature))
            && Property(request, PARAMS) == Some(params)
  {
    assert QUERY_ID != SIGNATURE && QUERY_ID != PARAMS && SIGNATURE != PARAMS;
    var id, sig, par := Field(QUERY_ID, Str(queryId)), Field(SIGNATURE, Str(signature)), Field(PARAMS, params);
    assert [id, sig, par][1..] == [sig, par] && [sig, par][1..] == [par];
    assert PropertyOf([par], PARAMS) == Some(params);
    assert PropertyOf([sig, par], PARAMS) == Some(params) && PropertyOf([sig, par], SIGNATURE) == Some(Str(signature));
  }

  /** What the server decodes from a request: the same request with every string as received. */
  lemma RequestReceived(queryId: Text, signature: Text, params: Value, coerce: Value -> Option<Text>)
    requires |queryId| < TWO_TO_32 && TextSurvives(signature) && WellFormed(params)
    ensures var request := Request(queryId, signature, params);
            if |queryId| <= MAX_STRING && Fits(params)
            then Dec(Enc(request), 0, coerce) ==
                 Ok(Request(DecodeUtf8(queryId), signature, Received(params)), |Enc(request)|)
            else Dec(Enc(request), 0, coerce).Err?
  {
    hide Enc, Dec, DecodeUtf8, TextSurvives;
    var request := Request(queryId, signature, params);
    RequestWellFormed(queryId, signature, params);
    assert At(Enc(request), 0, Enc(request));
    DecodeEncoded(Enc(request), 0, request, coerce);
    RequestReceivedPairs(queryId, signature, params);
    AssignDistinct(Request(DecodeUtf8(queryId), signature, Received(params)).fields);
  }

  lemma RequestWellFormed(queryId: Text, signature: Text, params: Value)
    requires |queryId| < TWO_TO_32 && TextSurvives(signature) && WellFormed(params)
    ensures WellFormed(Request(queryId, signature, params))
    ensures Fits(Request(queryId, signature, params)) <==> |queryId| <= MAX_STRING && Fits(params)
  {
    hide DecodeUtf8;
    var id, sig, par := Field(QUERY_ID, Str(queryId)), Field(SIGNATURE, Str(signature)), Field(PARAMS, params);
    assert QUERY_ID != SIGNATURE && QUERY_ID != PARAMS && SIGNATURE != PARAMS;
    assert [id, sig, par][1..] == [sig, par] && [sig, par][1..] == [par] && [par][1..] == [];
    assert |QUERY_ID| == 7 && |SIGNATURE| == 9 && |PARAMS| == 6;
    assert WellFormed(Str(queryId)) && WellFormed(Str(signature)) && Fits(Str(signature));
    assert WellFormedField(id) && WellFormedField(sig) && FieldFits(sig);
    assert WellFormedFields([par]) && (FieldsFit([par]) <==> Fits(params));
    assert WellFormedFields([sig, par]) && (FieldsFit([sig, par]) <==> Fits(params));
    assert WellFormedFields([id, sig, par]) && (FieldFits(id) <==> |queryId| <= MAX_STRING);
    assert FieldsFit([id, sig, par]) <==> FieldFits(id) && FieldsFit([sig, par]);
    assert FieldsFit([id, sig, par]) <==> |queryId| <= MAX_STRING && Fits(params);
  }

  lemma RequestReceivedPairs(queryId: Text, signature: Text, params: Value)
    requires TextSurvives(signature)
    ensures ReceivedPairs(Request(queryId, signature, params).fields) ==
            Request(DecodeUtf8(queryId), signature, Received(params)).fields
  {
    hide DecodeUtf8;
    var id, sig, par := Field(QUERY_ID, Str(queryId)), Field(SIGNATURE, Str(signature)), Field(PARAMS, params);
    AsciiSurvives(QUERY_ID);
    AsciiSurvives(SIGNATURE);
    AsciiSurvives(PARAMS);
    assert [id, sig, par][1..] == [sig, par] && [sig, par][1..] == [par] && [par][1..] == [];
    assert ReceivedPairs([par]) == [ReceivedField(par)];
    assert ReceivedPairs([sig, par]) == [ReceivedField(sig), ReceivedField(par)];
    assert ReceivedPairs([id, sig, par]) == [ReceivedField(id), ReceivedField(sig), ReceivedField(par)];
  }

  lemma SignatureSurvives(mac: Mac, secret: Text, queryId: Text, params: Data)
    requires Sha256Sized(mac)
    ensures TextSurvives(Signature(mac, secret, queryId, params))
  {
    AsciiSurvives(Signature(mac, secret, queryId, params));
  }

  lemma {:induction false} HexInjective(a: Data, b: Data)
    ensures Hex(a) == Hex(b) <==> a == b
    decreases |a|
  {
    if a != [] && b != [] {
      var x, y := [HexDigit(a[0] / 16), HexDigit(a[0] % 16)], [HexDigit(b[0] / 16), HexDigit(b[0] % 16)];
      assert Hex(a) == x + Hex(a[1..]) && Hex(b) == y + Hex(b[1..]);
      HexInjective(a[1..], b[1..]);
      assert Hex(a)[..2] == x && Hex(b)[..2] == y && Hex(a)[2..] == Hex(a[1..]) && Hex(b)[2..] == Hex(b[1..]);
      assert x == y ==> x[0] == y[0] && x[1] == y[1];
      assert a == [a[0]] + a[1..] && b == [b[0]] + b[1..];
    }
  }

  /** What the client signs. */
  function Message(queryId: Text, params: Value): Data {
    queryId + Enc(params)
  }

  /** What the server checks the signature against, once it has decoded the request. */
  function MessageReceived(queryId: Text, params: Value): Data {
    DecodeUtf8(queryId) + Enc(Received(params))
  }

  /**
    Under a secret that is not empty, an honest call that the decoder accepts gets past the signature check
    exactly when the code of what the server re-encodes is the code of what the client signed.
   */
  lemma HonestVerdict(server: Server, contentLength: int, queryId: Text, params: Value)
    requires Sha256Sized(server.mac) && WellFormed(params) && |queryId| < TWO_TO_32
    ensures var body := Enc(HonestRequest(server.mac, server.secret, queryId, params));
            Verdict(server, contentLength, body) ==
            if TooLarge(server, contentLength, body) then PayloadTooLarge
            else if server.secret != [] && |queryId| <= MAX_STRING && Fits(params)
                    && server.mac(server.secret, Message(queryId, params)) ==
                       server.mac(server.secret, MessageReceived(queryId, params))
            then Answer(server, DecodeUtf8(queryId), Some(Received(params)))
            else Forbidden
  {
    hide Enc, Dec, Hex, Fits, WellFormed, Received, DecodeUtf8, PropertyOf, Answer, TextSurvives;
    var sent := Signature(server.mac, server.secret, queryId, Enc(params));
    SignatureSurvives(server.mac, server.secret, queryId, Enc(params));
    RequestReceived(queryId, sent, params, server.coerce);
    RequestProperties(DecodeUtf8(queryId), sent, Received(params));
    HexInjective(server.mac(server.secret, Message(queryId, params)),
                 server.mac(server.secret, MessageReceived(queryId, params)));
    ForbiddenOutsideManifest(server, DecodeUtf8(queryId), Some(Received(params)));
  }

  lemma ForbiddenOutsideManifest(server: Server, queryId: Text, params: Option<Value>)
    ensures queryId !in server.manifest ==> Answer(server, queryId, params) == Forbidden
  {
  }

  /**
    The message the server checks is the signed one exactly when the query id and the parameters survive,
    and shorter otherwise.
   */
  lemma MessagesCompared(queryId: Text, params: Value)
    requires WellFormed(params) && Fits(params) && |queryId| <= MAX_STRING
    ensures TextSurvives(queryId) && Survives(params) ==> MessageReceived(queryId, params) == Message(queryId, params)
    ensures !(TextSurvives(queryId) && Survives(params)) ==>
      |MessageReceived(queryId, params)| < |Message(queryId, params)|
  {
    hide Enc, Survives, Received, WellFormed, Fits;
    ReceivedNotLonger(params);
    if Survives(params) { ReceivedUnchanged(params); }
  }

  /**
    An honest call whose query id and parameters the codec preserves passes every check: the re-encoded
    parameters are byte for byte what the client signed, and the handler runs on the client's parameters.
   */
  lemma HonestCallAnswered(server: Server, contentLength: int, queryId: Text, params: Value)
    requires Sha256Sized(server.mac) && WellFormed(params)
    requires TextSurvives(queryId) && Survives(params)
    ensures var body := Enc(HonestRequest(server.mac, server.secret, queryId, params));
            Verdict(server, contentLength, body) ==
            if TooLarge(server, contentLength, body) then PayloadTooLarge
            else if server.secret == [] then Forbidden
            else Answer(server, queryId, Some(params))
  {
    hide Enc, Survives, Received, WellFormed, Fits, Verdict, Answer, HonestRequest;
    SurvivorFits(params);
    ReceivedUnchanged(params);
    MessagesCompared(queryId, params);
    HonestVerdict(server, contentLength, queryId, params);
  }

  /**
    Any other honest call is refused, unless two messages of different lengths happen to have the same
    code; nobody tampered with it.
   */
  lemma AlteredCall(server: Server, contentLength: int, queryId: Text, params: Value)
    requires Sha256Sized(server.mac) && WellFormed(params) && |queryId| < TWO_TO_32
    requires !(TextSurvives(queryId) && Survives(params))
    ensures Verdict(server, contentLength, Enc(HonestRequest(server.mac, server.secret, queryId, params))).Response? ==>
      && |MessageReceived(queryId, params)| < |Message(queryId, params)|
      && server.mac(server.secret, MessageReceived(queryId, params)) ==
        server.mac(server.secret, Message(queryId, params))
  {
    hide Enc, Survives, TextSurvives, WellFormed, Fits, Verdict, Answer, HonestRequest, Message, MessageReceived;
    HonestVerdict(server, contentLength, queryId, params);
    if |queryId| <= MAX_STRING && Fits(params) {
      MessagesCompared(queryId, params);
    }
  }

  /** The code tells the message the server checks from the one the client signed, should they differ. */
  predicate CodesDiffer(mac: Mac, secret: Text, queryId: Text, params: Value) {
    MessageReceived(queryId, params) != Message(queryId, params) ==>
      mac(secret, MessageReceived(queryId, params)) != mac(secret, Message(queryId, params))
  }

  /**
    Exactly which honest calls pass the signature check: those whose query id and parameters hold only
    strings and counts within the decoder's limits, and no string with a leading byte order mark. The
    others are forbidden.
   */
  lemma HonestCallExact(server: Server, contentLength: int, queryId: Text, params: Value)
    requires Sha256Sized(server.mac) && WellFormed(params) && |queryId| < TWO_TO_32
    requires CodesDiffer(server.mac, server.secret, queryId, params)
    ensures var body := Enc(HonestRequest(server.mac, server.secret, queryId, params));
            Verdict(server, contentLength, body) ==
            if TooLarge(server, contentLength, body) then PayloadTooLarge
            else if server.secret != [] && TextSurvives(queryId) && Survives(params) then
              Answer(server, queryId, Some(params))
            else Forbidden
  {
    hide Enc, Survives, TextSurvives, WellFormed, Fits, Verdict, Answer, HonestRequest, Message, MessageReceived;
    if TextSurvives(queryId) && Survives(params) {
      HonestCallAnswered(server, contentLength, queryId, params);
    } else {
      HonestVerdict(server, contentLength, queryId, params);
      if |queryId| <= MAX_STRING && Fits(params) {
        MessagesCompared(queryId, params);
      }
    }
  }

  /** Parameters that hold, at any depth, a string starting with a byte order mark are refused. */
  lemma MarkedStringAltered(server: Server, contentLength: int, queryId: Text, params: Value, text: Text)
    requires Sha256Sized(server.mac) && WellFormed(params) && |queryId| < TWO_TO_32
    requires CodesDiffer(server.mac, server.secret, queryId, params)
    requires Contains(params, text) && Marked(text)
    ensures !Verdict(server, contentLength, Enc(HonestRequest(server.mac, server.secret, queryId, params))).Response?
  {
    hide Enc, Survives, TextSurvives, WellFormed, Verdict, Answer, HonestRequest, Message, Contains, CodesDiffer;
    HonestCallExact(server, contentLength, queryId, params);
    SurvivesUnmarked(text);
    if Survives(params) { SurvivingText(params, text); }
  }

  // ----- what a signature stands for -----

  /**
    Nothing separates the query id from the parameters: whatever a string parameter ends in can be read as
    parameters of its own, its beginning as part of a longer query id. The two calls have one signature.
   */
  lemma TwoCallsOneMessage(queryId: Text, start: Text, inner: Value)
    ensures var longer := queryId + [TAG_STRING] + LE32(|start + Enc(inner)|) + start;
      longer != queryId && Message(queryId, Str(start + Enc(inner))) == Message(longer, inner)
  {
    hide LE32;
    var head := [TAG_STRING] + LE32(|start + Enc(inner)|);
    assert Enc(Str(start + Enc(inner))) == head + (start + Enc(inner));
    assert queryId + (head + (start + Enc(inner))) ==
      queryId + [TAG_STRING] + LE32(|start + Enc(inner)|) + start + Enc(inner);
  }

  /** A query id whose bytes are no type tags; every printable one is. */
  predicate Tagless(queryId: Text) {
    forall i :: 0 <= i < |queryId| ==> queryId[i] > TAG_ERROR
  }

  lemma LongerId(idA: Text, a: Value, idB: Text, b: Value)
    requires Tagless(idB) && |idA| < |idB|
    ensures Message(idA, a) != Message(idB, b)
  {
    hide Enc;
    StartsWithTag(a);
    assert Message(idA, a)[|idA|] == Enc(a)[0] && Message(idB, b)[|idA|] == idB[|idA|];
  }

  /**
    For query ids free of tag bytes a message stands for one call only, whatever the parameters, and so does
    a signature, as far as the two messages' codes differ when the messages do.
   */
  lemma SignatureBinds(mac: Mac, secret: Text, idA: Text, a: Value, idB: Text, b: Value)
    requires Tagless(idA) && Tagless(idB)
    requires WellFormed(a) && WellFormed(b)
    ensures Message(idA, a) == Message(idB, b) <==> idA == idB && a == b
    ensures (Message(idA, a) != Message(idB, b) ==> mac(secret, Message(idA, a)) != mac(secret, Message(idB, b))) ==>
      (Signature(mac, secret, idA, Enc(a)) == Signature(mac, secret, idB, Enc(b)) <==> idA == idB && a == b)
  {
    hide Enc, WellFormed, Hex, Tagless;
    HexInjective(mac(secret, Message(idA, a)), mac(secret, Message(idB, b)));
    if |idA| < |idB| {
      LongerId(idA, a, idB, b);
    } else if |idB| < |idA| {
      LongerId(idB, b, idA, a);
    } else if Message(idA, a) == Message(idB, b) {
      assert idA == Message(idA, a)[..|idA|] && Enc(a) == Message(idA, a)[|idA|..];
      assert idB == Message(idB, b)[..|idA|] && Enc(b) == Message(idB, b)[|idA|..];
      assert Enc(a) + [] == Enc(a) && Enc(b) + [] == Enc(b);
      UniquelyDecodable(a, b, [], []);
    }
  }

  // ----- what the hexadecimal text says -----

  /** The number a hexadecimal digit stands for, in either case. */
  function DigitValue(c: Byte): nat {
    if 'a' as int <= c <= 'f' as int then c - 'a' as int + 10
    else if 'A' as int <= c <= 'F' as int then c - 'A' as int + 10
    else if '0' as int <= c <= '9' as int then c - '0' as int
    else 16
  }

  /** Two digits for each byte, the higher first, in lower case. */
  lemma {:induction false} HexRead(d: Data, k: nat)
    requires k < |d|
    ensures 16 * DigitValue(Hex(d)[2 * k]) + DigitValue(Hex(d)[2 * k + 1]) == d[k]
    ensures DigitValue(Hex(d)[2 * k]) < 16 && DigitValue(Hex(d)[2 * k + 1]) < 16
    ensures Hex(d)[2 * k] !in {65, 66, 67, 68, 69, 70} && Hex(d)[2 * k + 1] !in {65, 66, 67, 68, 69, 70}
    decreases |d|
  {
    var first := [HexDigit(d[0] / 16), HexDigit(d[0] % 16)];
    assert Hex(d) == first + Hex(d[1..]);
    if k > 0 {
      HexRead(d[1..], k - 1);
      assert Hex(d)[2 * k] == Hex(d[1..])[2 * (k - 1)] && Hex(d)[2 * k + 1] == Hex(d[1..])[2 * (k - 1) + 1];
    }
  }

  /** The bytes of an ASCII string. */
  function Ascii(s: string): Text
    requires forall i :: 0 <= i < |s| ==> s[i] as int < 128
  {
    seq(|s|, i requires 0 <= i < |s| => s[i] as int)
  }

  /**
    An honest request, property by property: the query id, the code of the id's bytes followed by the
    parameters' bytes, and the parameters.
   */
  lemma RequestSaid(mac: Mac, secret: Text, queryId: Text, params: Value)
    ensures var request := HonestRequest(mac, secret, queryId, params);
      && request.Obj? && |request.fields| == 3
      && request.fields[0] == Field(Ascii("queryId"), Str(queryId))
      && request.fields[1] == Field(Ascii("signature"), Str(Hex(mac(secret, queryId + Enc(params)))))
      && request.fields[2] == Field(Ascii("params"), params)
  {
    hide Enc, Hex;
    assert Ascii("queryId") == QUERY_ID;
    assert Ascii("signature") == SIGNATURE;
    assert Ascii("params") == PARAMS;
  }

  /**
    The request has the code of the id's and the parameters' bytes for a signature, an id that is missing
    having no bytes and missing parameters those of null.
   */
  predicate WellSigned(server: Server, decoded: Value, id: Option<Text>, params: Option<Value>) {
    var message := (if id.None? then [] else id.value) + Enc(if params.None? then Null else params.value);
    && server.secret != []
    && Property(decoded, Ascii("signature")) == Some(Str(Hex(server.mac(server.secret, message))))
  }

  /** What the named procedure comes to, if the server offers it; a missing id is looked up as "undefined". */
  function Outcome(server: Server, id: Option<Text>, params: Option<Value>): Option<Value> {
    var name := if id.None? then Ascii("undefined") else id.value;
    if name in server.manifest && name in server.handlers then server.handlers[name](params) else None
  }

  /** Any body, honest or not, whose id is a string or missing: what it is answered. */
  lemma BodyJudged(server: Server, contentLength: int, body: Data, decoded: Value, next: nat, id: Option<Text>,
      params: Option<Value>)
    requires Dec(body, 0, server.coerce) == Ok(decoded, next)
    requires Property(decoded, Ascii("queryId")) == if id.None? then None else Some(Str(id.value))
    requires Property(decoded, Ascii("params")) == params
    ensures var reply, result := Verdict(server, contentLength, body), Outcome(server, id, params);
      reply ==
        if contentLength > server.maxRequestSize || |body| > server.maxRequestSize then PayloadTooLarge
        else if WellSigned(server, decoded, id, params) && result.Some? then Response(Enc(result.value))
        else Forbidden
  {
    hide Enc, Dec, Hex, Ascii, WellSigned, Outcome, Checked, PropertyOf;
    NamesSpelled();
    DecodedJudged(server, decoded, id, params);
    NullUnsigned(server, id, params);
  }

  lemma NullUnsigned(server: Server, id: Option<Text>, params: Option<Value>)
    ensures !WellSigned(server, Null, id, params)
  {
    hide Enc, Hex, Ascii;
  }

  lemma NamesSpelled()
    ensures Ascii("queryId") == QUERY_ID && Ascii("signature") == SIGNATURE && Ascii("params") == PARAMS
    ensures Ascii("undefined") == UNDEFINED
  {
  }

  lemma DecodedJudged(server: Server, decoded: Value, id: Option<Text>, params: Option<Value>)
    requires Property(decoded, QUERY_ID) == if id.None? then None else Some(Str(id.value))
    requires Property(decoded, PARAMS) == params
    ensures var result := Outcome(server, id, params);
      Checked(server, decoded) ==
        if WellSigned(server, decoded, id, params) && result.Some? then Response(Enc(result.value)) else Forbidden
  {
    hide Enc, Hex, Ascii, PropertyOf;
    NamesSpelled();
  }

  /** A body that does not decode is refused, and nothing but its size is looked at before. */
  lemma UnreadableRefused(server: Server, contentLength: int, body: Data)
    requires Dec(body, 0, server.coerce).Err?
    ensures Verdict(server, contentLength, body) ==
      if contentLength > server.maxRequestSize || |body| > server.maxRequestSize then PayloadTooLarge else Forbidden
  {
    hide Dec;
  }

  // ----- a call from end to end -----

  /** The request arrives as it was meant: within the limits, and nothing in it altered by the codec. */
  ghost predicate Carried(server: Server, queryId: Text, params: Value) {
    && Sha256Sized(server.mac) && server.secret != [] && TextSurvives(queryId) && Survives(params)
    && |Enc(HonestRequest(server.mac, server.secret, queryId, params))| <= Min(server.maxRequestSize, MAX_SLAB / 2)
  }

  /** The procedure gets the client's own parameters and comes to this result. */
  predicate Comes(server: Server, queryId: Text, params: Value, result: Value) {
    && queryId in server.manifest && queryId in server.handlers
    && server.handlers[queryId](Some(params)) == Some(result)
  }

  /** No procedure of this name is offered, or it throws. */
  predicate NoResult(server: Server, queryId: Text, params: Value) {
    queryId in server.manifest && queryId in server.handlers ==> server.handlers[queryId](Some(params)).None?
  }

  /** What an honest call that survives is answered, said without the server's own functions. */
  lemma AnswerSaid(server: Server, contentLength: int, queryId: Text, params: Value)
    requires WellFormed(params) && Carried(server, queryId, params) && contentLength <= server.maxRequestSize
    ensures var body := Enc(HonestRequest(server.mac, server.secret, queryId, params));
      && (forall result :: Comes(server, queryId, params, result) ==>
            Verdict(server, contentLength, body) == Response(Enc(result)))
      && (NoResult(server, queryId, params) ==> Verdict(server, contentLength, body) == Forbidden)
  {
    hide Enc, Survives, TextSurvives, WellFormed, Verdict, HonestRequest;
    HonestCallAnswered(server, contentLength, queryId, params);
  }

  /** What a client reads in the response: the handler's result, as received. */
  lemma ResponseRead(result: Value, coerce: Value -> Option<Text>)
    requires WellFormed(result)
    ensures var read := Dec(Enc(result), 0, coerce);
      if Fits(result) then read == Ok(Received(result), |Enc(result)|) else read.Err?
    ensures Survives(result) ==> Dec(Enc(result), 0, coerce) == Ok(result, |Enc(result)|)
  {
    hide Enc, Dec, WellFormed, Fits, Received, Survives;
    assert At(Enc(result), 0, Enc(result));
    DecodeEncoded(Enc(result), 0, result, coerce);
    if Survives(result) {
      SurvivorFits(result);
      ReceivedUnchanged(result);
    }
  }

  /** On an honest call neither of the server's encodings meets the slab limit. */
  lemma HonestEncodingsFit(server: Server, queryId: Text, params: Value)
    requires Sha256Sized(server.mac) && WellFormed(params) && |queryId| < TWO_TO_32
    requires |Enc(HonestRequest(server.mac, server.secret, queryId, params))| <= MAX_SLAB / 2
    requires ResultFits(server, DecodeUtf8(queryId), Some(Received(params)))
    ensures EncodingsFit(server, Enc(HonestRequest(server.mac, server.secret, queryId, params)))
  {
    hide Enc, Dec, Hex, Fits, WellFormed, Received, DecodeUtf8, PropertyOf, ResultFits, TextSurvives;
    var sent := Signature(server.mac, server.secret, queryId, Enc(params));
    SignatureSurvives(server.mac, server.secret, queryId, Enc(params));
    RequestReceived(queryId, sent, params, server.coerce);
    RequestProperties(DecodeUtf8(queryId), sent, Received(params));
    ParamsInside(queryId, sent, params);
    if Fits(params) { ReceivedNotLonger(params); }
  }

  lemma ResultSize(server: Server, queryId: Text, params: Value)
    ensures forall result :: Comes(server, queryId, params, result) && |Enc(result)| <= MAX_SLAB / 2 ==>
      ResultFits(server, queryId, Some(params))
    ensures NoResult(server, queryId, params) && queryId in server.manifest ==>
      ResultFits(server, queryId, Some(params))
  {
    hide Enc;
  }

  /** The client's call and the server's answer to it, the transport delivering the bytes sent. */
  method Call(server: Server, queryId: Text, params: Value) returns (r: Option<Reply>)
    requires WellFormed(params) && |queryId| < TWO_TO_32
    ensures server.secret == [] ==> r.None?
    ensures server.secret != [] && |Enc(HonestRequest(server.mac, server.secret, queryId, params))| <= MAX_SLAB / 2 ==>
      r.Some?
    ensures Sha256Sized(server.mac) && server.secret != [] && TextSurvives(queryId) && Survives(params)
      && ResultFits(server, queryId, Some(params))
      && |Enc(HonestRequest(server.mac, server.secret, queryId, params))| <= Min(server.maxRequestSize, MAX_SLAB / 2)
      ==> r == Some(Answer(server, queryId, Some(params)))
    ensures Carried(server, queryId, params) ==>
      forall result :: Comes(server, queryId, params, result) && |Enc(result)| <= MAX_SLAB / 2 ==>
        r == Some(Response(Enc(result)))
    ensures Carried(server, queryId, params) && NoResult(server, queryId, params) ==> r == Some(Forbidden)
    ensures Sha256Sized(server.mac) && CodesDiffer(server.mac, server.secret, queryId, params)
      && r.Some? && r.value.Response?
      ==> TextSurvives(queryId) && Survives(params) && r.value == Answer(server, queryId, Some(params))
  {
    hide Enc, Survives, WellFormed, Fits, Verdict, Answer, HonestRequest, Message, CodesDiffer, EncodingsFit,
      ResultFits, Received;
    var body := SendRequest(server.mac, server.secret, queryId, params);
    if body.None? {
      return None;
    }
    var reply := HandleRequest(server, |body.value|, body.value);
    if Sha256Sized(server.mac) {
      if TextSurvives(queryId) && Survives(params) {
        HonestCallAnswered(server, |body.value|, queryId, params);
        SurvivorFits(params);
        ReceivedUnchanged(params);
        if ResultFits(server, queryId, Some(params)) && |body.value| <= MAX_SLAB / 2 {
          HonestEncodingsFit(server, queryId, params);
        }
        ResultSize(server, queryId, params);
        if Carried(server, queryId, params) {
          AnswerSaid(server, |body.value|, queryId, params);
        }
      } else if CodesDiffer(server.mac, server.secret, queryId, params) {
        HonestCallExact(server, |body.value|, queryId, params);
      }
    }
    return Some(reply);
  }
}
