/** The browser extension's bridge and the native host it talks to: envelopes built on one
    side are validated and answered on the other
    (app/browser-extension/src/native-bridge.js, app/native-host/src/protocol.js, host.js). */
module NativeBridge {
  import opened Prelude

  datatype Json =
    | Undefined
    | Null
    | Bool(b: bool)
    | Number(n: int)
    | String(s: string)
    | Array(items: seq<Json>)
    | Object(fields: map<string, Json>)
  {
    predicate Truthy() {
      match this
      case Undefined => false
      case Null => false
      case Bool(b) => b
      case Number(n) => n != 0
      case String(s) => s != ""
      case Array(_) => true
      case Object(_) => true
    }

    predicate Nullish() {
      Undefined? || Null?
    }

    predicate NonEmptyString() {
      String? && s != ""
    }

    /** Property access; anything but a plain object has none of the properties read here. */
    function Get(key: string): Json {
      if Object? && key in fields then fields[key] else Undefined
    }

    /** `this ?? other` */
    function Or(other: Json): Json {
      if Nullish() then other else this
    }
  }

  const SCHEMA_VERSION := "eventloop.nativeBridgeEnvelope.v1"
  const CONTEXT_CAPTURED := "eventloop.contextCaptured"
  const HOST_CAPABILITIES := ["eventloop.contextCaptured.v1"]
  const ENVELOPE_FIELDS := {"schemaVersion", "request_id", "idempotency_key", "type", "capabilities"}

  /** `find` over the requested capabilities: the first one not supported. */
  function FirstUnsupported(capabilities: seq<Json>, supported: seq<string>): Json {
    if capabilities == [] then Undefined
    else if capabilities[0].String? && capabilities[0].s in supported
    then FirstUnsupported(capabilities[1..], supported)
    else capabilities[0]
  }

  // ---------------------------------------------------------------- the bridge

  /** What a sender sees; `code` is that of the error, Null without one. */
  datatype Reply = Reply(ok: bool, requestId: Json, idempotencyKey: Json, payload: Json, code: Json)

  datatype Built = Accepted(envelope: Json) | Rejected(code: string)

  /** What a JavaScript set compares: a primitive by its value, an object or array by which one
      it is. */
  datatype Identity = Value(json: Json) | Reference(address: nat)

  /** One `send`: the message, the caller's options, the id `createRequestId` would give, how a
      template string shows a value, and where the key is if it is an object or array. */
  datatype Send = Send(
    message: Json,
    requestId: Json,
    idempotencyKey: Json,
    freshId: string,
    show: Json -> string,
    keyAddress: nat)
  {
    function Type(): Json {
      message.Get("type")
    }

    function Capabilities(): seq<Json> {
      var given := message.Get("capabilities");
      if given.Array? then given.items
      else if Type() == String(CONTEXT_CAPTURED) then [String("eventloop.contextCaptured.v1")]
      else []
    }

    function RequestId(): Json {
      requestId.Or(message.Get("request_id")).Or(String(freshId))
    }

    function Key(): Json
      requires Type().String?
    {
      idempotencyKey.Or(message.Get("idempotency_key"))
      .Or(String("eventloop:" + Type().s + ":" + show(RequestId())))
    }

    function KeyIdentity(): Identity
      requires Type().String?
    {
      if Key().Object? || Key().Array? then Reference(keyAddress) else Value(Key())
    }

    function Payload(): Json {
      if message.Object? && "payload" in message.fields then message.fields["payload"]
      else if message.Object? then Object(message.fields - ENVELOPE_FIELDS)
      else Undefined
    }

    /** The checks made before the key is looked at. */
    function Objection(supported: seq<string>): Option<string> {
      if !message.Object? then Some("invalid_native_request")
      else if !Type().NonEmptyString() then Some("invalid_native_request")
      else if FirstUnsupported(Capabilities(), supported).Truthy() then Some("unsupported_capability")
      else None
    }

    function Envelope(): Json
      requires Type().String?
    {
      Object(map[
        "schemaVersion" := String(SCHEMA_VERSION),
        "request_id" := RequestId(),
        "idempotency_key" := Key(),
        "type" := Type(),
        "capabilities" := Array(Capabilities()),
        "payload" := Payload()
      ])
    }
  }

  function Build(send: Send, supported: seq<string>, sentKeys: set<Identity>): (Built, set<Identity>) {
    match send.Objection(supported)
    case Some(code) => (Rejected(code), sentKeys)
    case None =>
      if send.KeyIdentity() in sentKeys then (Rejected("duplicate_idempotency_key"), sentKeys)
      else (Accepted(send.Envelope()), sentKeys + {send.KeyIdentity()})
  }

  /** The bridge object: its capability option and the keys it has sent. */
  class ChromeNativeBridge {
    const supported: seq<string>
    var sentKeys: set<Identity>

    constructor (supported: seq<string>)
      ensures this.supported == supported && sentKeys == {}
    {
      this.supported := supported;
      sentKeys := {};
    }

    method BuildEnvelope(send: Send) returns (r: Built)
      modifies this
      ensures (r, sentKeys) == Build(send, supported, old(sentKeys))
    {
      if !send.message.Object? || !send.Type().NonEmptyString() {
        return Rejected("invalid_native_request");
      }
      var capabilities := send.Capabilities();
      var index := 0;
      while index < |capabilities| && capabilities[index].String? && capabilities[index].s in supported
        invariant 0 <= index <= |capabilities|
        invariant FirstUnsupported(capabilities, supported) == FirstUnsupported(capabilities[index..], supported)
      {
        assert capabilities[index..][1..] == capabilities[index + 1..];
        index := index + 1;
      }
      if index < |capabilities| && capabilities[index].Truthy() {
        return Rejected("unsupported_capability");
      }
      var key := send.KeyIdentity();
      if key in sentKeys {
        return Rejected("duplicate_idempotency_key");
      }
      sentKeys := sentKeys + {key};
      r := Accepted(send.Envelope());
    }
  }

  function BridgeError(code: Json, envelope: Json): Reply {
    Reply(false, envelope.Get("request_id").Or(Null), envelope.Get("idempotency_key").Or(Null), Null, code)
  }

  function NormalizeResponse(response: Json, envelope: Json): Reply {
    if !response.Object? || !response.Get("ok").Bool? then
      BridgeError(String("malformed_native_response"), envelope)
    else if !response.Get("ok").b then
      BridgeError(response.Get("error").Get("code").Or(String("native_bridge_error")), envelope)
    else
      Reply(true,
            response.Get("request_id").Or(envelope.Get("request_id")).Or(Null),
            response.Get("idempotency_key").Or(envelope.Get("idempotency_key")).Or(Null),
            response.Get("payload").Or(Null), Null)
  }

  // ---------------------------------------------------------------- the host

  function HostError(requestId: Json, idempotencyKey: Json, code: string): Json {
    Object(map[
      "ok" := Bool(false),
      "request_id" := requestId.Or(Null),
      "idempotency_key" := idempotencyKey.Or(Null),
      "payload" := Null,
      "error" := Object(map["code" := String(code)])
    ])
  }

  function HostOk(envelope: Json, payload: Json): Json {
    Object(map[
      "ok" := Bool(true),
      "request_id" := envelope.Get("request_id"),
      "idempotency_key" := envelope.Get("idempotency_key"),
      "payload" := payload,
      "error" := Null
    ])
  }

  /** `None` when the envelope is fit to be handled, otherwise the error that is answered. */
  function ValidateEnvelope(envelope: Json): Option<Json> {
    var requestId := envelope.Get("request_id");
    var key := envelope.Get("idempotency_key");
    if !envelope.Object? then Some(HostError(Null, Null, "invalid_envelope"))
    else if envelope.Get("schemaVersion") != String(SCHEMA_VERSION) then
      Some(HostError(requestId, key, "unsupported_schema_version"))
    else if !requestId.NonEmptyString() || !key.NonEmptyString() || !envelope.Get("type").NonEmptyString() then
      Some(HostError(requestId, key, "invalid_envelope"))
    else if !envelope.Get("capabilities").Array? then Some(HostError(requestId, key, "invalid_envelope"))
    else if FirstUnsupported(envelope.Get("capabilities").items, HOST_CAPABILITIES).Truthy() then
      Some(HostError(requestId, key, "unsupported_capability"))
    else None
  }

  /** The host's answer. `stored` is the payload of a capture that was stored and forwarded;
      storing or forwarding may throw instead. */
  function Answer(envelope: Json, stored: Option<Json>): Json {
    var error := ValidateEnvelope(envelope);
    if error.Some? then error.value
    else if envelope.Get("type") != String(CONTEXT_CAPTURED) then
      HostError(envelope.Get("request_id"), envelope.Get("idempotency_key"), "unsupported_message_type")
    else if !envelope.Get("payload").Get("resource").Object? then
      HostError(envelope.Get("request_id"), envelope.Get("idempotency_key"), "invalid_payload")
    else if stored.None? then HostError(Null, Null, "native_host_failed")
    else HostOk(envelope, stored.value)
  }

  // ---------------------------------------------------------------- the two sides agree

  /** A bridge that offers no more than the host supports never builds an envelope the host
      finds unsupported, even where the scan stops at a value that counts as false. */
  lemma {:induction false} CapabilitiesAgree(capabilities: seq<Json>, supported: seq<string>)
    requires forall c :: c in supported ==> c in HOST_CAPABILITIES
    requires !FirstUnsupported(capabilities, supported).Truthy()
    ensures !FirstUnsupported(capabilities, HOST_CAPABILITIES).Truthy()
  {
    if capabilities != [] && capabilities[0].String? && capabilities[0].s in supported {
      CapabilitiesAgree(capabilities[1..], supported);
    }
  }

  /** An envelope the bridge accepted passes the host's validation exactly when both of its
      ids are non-empty strings; nothing else can go wrong. */
  lemma AcceptedEnvelopeIsValid(send: Send, supported: seq<string>, sentKeys: set<Identity>)
    requires forall c :: c in supported ==> c in HOST_CAPABILITIES
    requires Build(send, supported, sentKeys).0.Accepted?
    ensures var envelope := Build(send, supported, sentKeys).0.envelope;
            ValidateEnvelope(envelope).None? <==>
            envelope.Get("request_id").NonEmptyString() && envelope.Get("idempotency_key").NonEmptyString()
  {
    CapabilitiesAgree(send.Capabilities(), supported);
  }

  predicate Refuses(answer: Json) {
    answer.Object? && answer.Get("ok") == Bool(false) && answer.Get("error").Get("code").String?
  }

  lemma ErrorComesHome(answer: Json, envelope: Json)
    requires Refuses(answer)
    ensures NormalizeResponse(answer, envelope) == BridgeError(answer.Get("error").Get("code"), envelope)
  {
  }

  lemma OkComesHome(envelope: Json, payload: Json)
    requires !envelope.Get("request_id").Nullish() && !envelope.Get("idempotency_key").Nullish()
    ensures NormalizeResponse(HostOk(envelope, payload), envelope) ==
            Reply(true, envelope.Get("request_id"), envelope.Get("idempotency_key"), payload.Or(Null), Null)
  {
  }

  /** The host stores a valid capture and answers its payload, and refuses everything else. */
  lemma AnswerMeaning(envelope: Json, stored: Option<Json>)
    ensures var good := ValidateEnvelope(envelope).None? && envelope.Get("type") == String(CONTEXT_CAPTURED) &&
                        envelope.Get("payload").Get("resource").Object? && stored.Some?;
            if good then Answer(envelope, stored) == HostOk(envelope, stored.value) else Refuses(Answer(envelope, stored))
  {
  }

  /** Whatever the host answers to an accepted envelope (success, any of its errors, or the
      failure that names no envelope at all), the sender sees its own request id and key; and
      it sees success exactly for a valid capture that was stored. */
  lemma AnswersComeHome(send: Send, supported: seq<string>, sentKeys: set<Identity>, stored: Option<Json>)
    requires Build(send, supported, sentKeys).0.Accepted?
    ensures var envelope := Build(send, supported, sentKeys).0.envelope;
            var reply := NormalizeResponse(Answer(envelope, stored), envelope);
            && reply.requestId == send.RequestId()
            && reply.idempotencyKey == send.Key()
            && (reply.ok <==>
                ValidateEnvelope(envelope).None? && send.Type() == String(CONTEXT_CAPTURED) &&
                send.Payload().Get("resource").Object? && stored.Some?)
            && (reply.ok ==> reply.payload == stored.value.Or(Null))
  {
    var envelope := send.Envelope();
    assert envelope.Get("request_id") == send.RequestId() && !send.RequestId().Nullish();
    assert envelope.Get("idempotency_key") == send.Key() && !send.Key().Nullish();
    assert envelope.Get("type") == send.Type() && envelope.Get("payload") == send.Payload();
    AnswerMeaning(envelope, stored);
    if Refuses(Answer(envelope, stored)) {
      ErrorComesHome(Answer(envelope, stored), envelope);
    } else {
      OkComesHome(envelope, stored.value);
    }
  }

  /** `first ?? second ?? last`, told by cases. */
  ghost predicate IsFirstGiven(value: Json, first: Json, second: Json, last: Json) {
    && (first != Undefined && first != Null ==> value == first)
    && ((first == Undefined || first == Null) && second != Undefined && second != Null ==> value == second)
    && ((first == Undefined || first == Null) && (second == Undefined || second == Null) ==> value == last)
  }

  /** The ids of an envelope: the caller's, else the message's, else a fresh request id, and a
      key made of the type and the request id. */
  lemma EnvelopeIds(send: Send, supported: seq<string>, sentKeys: set<Identity>)
    requires Build(send, supported, sentKeys).0.Accepted?
    ensures var envelope := Build(send, supported, sentKeys).0.envelope;
            var requestId := envelope.Get("request_id");
            && IsFirstGiven(requestId, send.requestId, send.message.Get("request_id"), String(send.freshId))
            && envelope.Get("type").String? && envelope.Get("type") == send.message.Get("type")
            && IsFirstGiven(envelope.Get("idempotency_key"), send.idempotencyKey, send.message.Get("idempotency_key"),
                            String("eventloop:" + envelope.Get("type").s + ":" + send.show(requestId)))
  {
  }

  /** What an envelope carries: the payload field of the message if it has one, otherwise all
      the fields of the message, with their values, but the five that the envelope has itself;
      and the capabilities the message asks for, or the one that goes with its type. */
  lemma EnvelopeCarries(send: Send, supported: seq<string>, sentKeys: set<Identity>)
    requires Build(send, supported, sentKeys).0.Accepted?
    ensures send.message.Object?
    ensures var (envelope, fields) := (Build(send, supported, sentKeys).0.envelope, send.message.fields);
            var payload := envelope.Get("payload");
            && envelope.Get("schemaVersion") == String("eventloop.nativeBridgeEnvelope.v1")
            && (if "payload" in fields then payload == fields["payload"]
                else
                  && payload.Object?
                  && payload.fields.Keys ==
                     fields.Keys - {"schemaVersion", "request_id", "idempotency_key", "type", "capabilities"}
                  && forall key :: key in payload.fields ==> payload.fields[key] == fields[key])
    ensures var (envelope, asked) := (Build(send, supported, sentKeys).0.envelope, send.message.Get("capabilities"));
            envelope.Get("capabilities") ==
            if asked.Array? then asked
            else if send.message.Get("type") == String("eventloop.contextCaptured")
            then Array([String("eventloop.contextCaptured.v1")])
            else Array([])
  {
  }

  /** A capture sent as the extension does, with its resource among the fields of the message,
      is answered with the payload stored if and only if the resource is an object and was stored. */
  lemma CaptureComesHome(send: Send, supported: seq<string>, sentKeys: set<Identity>, stored: Option<Json>)
    requires (forall c :: c in supported ==> c in HOST_CAPABILITIES) && Build(send, supported, sentKeys).0.Accepted?
    requires var envelope := Build(send, supported, sentKeys).0.envelope;
             envelope.Get("request_id").NonEmptyString() && envelope.Get("idempotency_key").NonEmptyString()
    requires send.message.Get("type") == String("eventloop.contextCaptured") && "payload" !in send.message.fields
    ensures var envelope := Build(send, supported, sentKeys).0.envelope;
            var reply := NormalizeResponse(Answer(envelope, stored), envelope);
            && (reply.ok <==> send.message.Get("resource").Object? && stored.Some?)
            && (reply.ok ==> reply.payload == if stored.value == Undefined then Null else stored.value)
  {
    AnswersComeHome(send, supported, sentKeys, stored);
    AcceptedEnvelopeIsValid(send, supported, sentKeys);
    ResourceIsCarried(send, supported, sentKeys);
  }

  /** An answer that is no success carries no payload and says why, and a success has no code. */
  lemma FailuresSayWhy(envelope: Json, stored: Option<Json>)
    requires envelope.Object? && ValidateEnvelope(envelope).None?
    requires envelope.Get("type") == String("eventloop.contextCaptured")
    ensures var (reply, resource) := (NormalizeResponse(Answer(envelope, stored), envelope),
                                      envelope.Get("payload").Get("resource"));
            && (reply.ok <==> resource.Object? && stored.Some?)
            && (!reply.ok ==> reply.payload == Null)
            && reply.code == if reply.ok then Null
                             else if resource.Object? then String("native_host_failed") else String("invalid_payload")
  {
    AnswerMeaning(envelope, stored);
    if Refuses(Answer(envelope, stored)) {
      ErrorComesHome(Answer(envelope, stored), envelope);
    } else {
      OkComesHome(envelope, stored.value);
    }
  }

  lemma ResourceIsCarried(send: Send, supported: seq<string>, sentKeys: set<Identity>)
    requires Build(send, supported, sentKeys).0.Accepted? && send.message.Object? && "payload" !in send.message.fields
    ensures Build(send, supported, sentKeys).0.envelope.Get("payload").Get("resource") == send.message.Get("resource")
  {
  }

  /** What the extension sends for a captured page. */
  function PageMessage(resource: Json, hints: map<string, Json>): Json {
    Object(hints["type" := String("eventloop.contextCaptured")]["resource" := resource])
  }

  lemma PageIsAccepted(send: Send, resource: Json, hints: map<string, Json>)
    requires "capabilities" !in hints && send.message == PageMessage(resource, hints)
    ensures Build(send, HOST_CAPABILITIES, {}).0.Accepted?
  {
    assert send.Type() == String("eventloop.contextCaptured");
    assert send.message.Get("capabilities") == Undefined;
    assert send.Capabilities() == [String("eventloop.contextCaptured.v1")];
    assert send.Capabilities()[1..] == [];
    assert FirstUnsupported([], HOST_CAPABILITIES) == Undefined;
    assert "eventloop.contextCaptured.v1" in HOST_CAPABILITIES;
  }

  /** And that is what happens to the message of a captured page: nothing is objected to, and
      with a new request id the host stores it and the sender sees what was stored. */
  lemma CapturedPage(resource: Json, hints: map<string, Json>, show: Json -> string, freshId: string, stored: Json)
    requires resource.Object? && freshId != "" && !stored.Nullish()
    requires hints.Keys !! {"request_id", "idempotency_key", "capabilities", "payload"}
    ensures var send := Send(PageMessage(resource, hints), Undefined, Undefined, freshId, show, 0);
            var built := Build(send, HOST_CAPABILITIES, {}).0;
            && built.Accepted?
            && built.envelope.Get("payload").Get("resource") == resource
            && var reply := NormalizeResponse(Answer(built.envelope, Some(stored)), built.envelope);
               reply.ok && reply.requestId == String(freshId) && reply.payload == stored
  {
    var send := Send(PageMessage(resource, hints), Undefined, Undefined, freshId, show, 0);
    PageIsAccepted(send, resource, hints);
    EnvelopeIds(send, HOST_CAPABILITIES, {});
    ResourceIsCarried(send, HOST_CAPABILITIES, {});
    CaptureComesHome(send, HOST_CAPABILITIES, {}, Some(stored));
    AnswersComeHome(send, HOST_CAPABILITIES, {}, Some(stored));
  }

  // ---------------------------------------------------------------- who is refused, and how

  /** All but undefined, null, false, 0 and the empty string. */
  predicate CountsAsTrue(json: Json) {
    json != Undefined && json != Null && json != Bool(false) && json != Number(0) && json != String("")
  }

  predicate IsOneOf(capability: Json, supported: seq<string>) {
    capability.String? && capability.s in supported
  }

  /** The first capability that is not supported is one that counts as true. */
  ghost predicate AsksTooMuch(capabilities: seq<Json>, supported: seq<string>) {
    exists i :: 0 <= i < |capabilities| && !IsOneOf(capabilities[i], supported) && CountsAsTrue(capabilities[i]) &&
                forall j :: 0 <= j < i ==> IsOneOf(capabilities[j], supported)
  }

  lemma {:induction false} FirstUnsupportedIs(capabilities: seq<Json>, supported: seq<string>)
    ensures FirstUnsupported(capabilities, supported).Truthy() <==> AsksTooMuch(capabilities, supported)
  {
    if capabilities != [] && IsOneOf(capabilities[0], supported) {
      var rest := capabilities[1..];
      FirstUnsupportedIs(rest, supported);
      if i :| 0 <= i < |capabilities| && !IsOneOf(capabilities[i], supported) && CountsAsTrue(capabilities[i]) &&
              forall j :: 0 <= j < i ==> IsOneOf(capabilities[j], supported)
      {
        assert rest[i - 1] == capabilities[i] && forall j :: 0 <= j < i - 1 ==> rest[j] == capabilities[j + 1];
      }
      if i :| 0 <= i < |rest| && !IsOneOf(rest[i], supported) && CountsAsTrue(rest[i]) &&
              forall j :: 0 <= j < i ==> IsOneOf(rest[j], supported)
      {
        assert capabilities[i + 1] == rest[i];
        assert forall j :: 1 <= j < i + 1 ==> capabilities[j] == rest[j - 1];
      }
    } else if capabilities != [] {
      TruthyMeaning(capabilities[0]);
    }
  }

  lemma TruthyMeaning(json: Json)
    ensures json.Truthy() <==> CountsAsTrue(json)
  {
  }

  /** A send is refused for a message that is no object with a type, for asking too much, or for
      a key that was used, in that order; only an accepted one records its key. */
  lemma RefusalMeaning(send: Send, supported: seq<string>, sentKeys: set<Identity>)
    ensures var (built, keys) := Build(send, supported, sentKeys);
            var (kind, asked) := (send.message.Get("type"), send.message.Get("capabilities"));
            var capabilities := if asked.Array? then asked.items
                                else if kind == String("eventloop.contextCaptured")
                                then [String("eventloop.contextCaptured.v1")] else [];
            if !send.message.Object? || !kind.String? || kind.s == "" then
              built == Rejected("invalid_native_request") && keys == sentKeys
            else if AsksTooMuch(capabilities, supported) then
              built == Rejected("unsupported_capability") && keys == sentKeys
            else if send.KeyIdentity() in sentKeys then
              built == Rejected("duplicate_idempotency_key") && keys == sentKeys
            else built.Accepted? && keys == sentKeys + {send.KeyIdentity()}
  {
    FirstUnsupportedIs(send.Capabilities(), supported);
  }

  /** Why the host does not handle an envelope, in the order of its checks. */
  ghost function WhyRefused(envelope: Json, stored: Option<Json>): Option<string> {
    if !envelope.Object? then Some("invalid_envelope")
    else if envelope.Get("schemaVersion") != String("eventloop.nativeBridgeEnvelope.v1") then
      Some("unsupported_schema_version")
    else if !envelope.Get("request_id").NonEmptyString() || !envelope.Get("idempotency_key").NonEmptyString() ||
            !envelope.Get("type").NonEmptyString() || !envelope.Get("capabilities").Array? then Some("invalid_envelope")
    else if AsksTooMuch(envelope.Get("capabilities").items, ["eventloop.contextCaptured.v1"]) then
      Some("unsupported_capability")
    else if envelope.Get("type") != String("eventloop.contextCaptured") then Some("unsupported_message_type")
    else if !envelope.Get("payload").Get("resource").Object? then Some("invalid_payload")
    else if stored.None? then Some("native_host_failed")
    else None
  }

  lemma AnswerIs(envelope: Json, stored: Option<Json>)
    ensures var (answer, why) := (Answer(envelope, stored), WhyRefused(envelope, stored));
            answer ==
            if why.None? then HostOk(envelope, stored.value)
            else if !envelope.Object? || why.value == "native_host_failed" then HostError(Null, Null, why.value)
            else HostError(envelope.Get("request_id"), envelope.Get("idempotency_key"), why.value)
  {
    if envelope.Get("capabilities").Array? {
      FirstUnsupportedIs(envelope.Get("capabilities").items, HOST_CAPABILITIES);
    }
  }

  /** The answer is a refusal for that reason, with these ids. */
  predicate RefusedFor(answer: Json, requestId: Json, key: Json, code: string) {
    && answer.Get("ok") == Bool(false) && answer.Get("payload") == Null
    && answer.Get("error").Get("code") == String(code)
    && answer.Get("request_id") == requestId && answer.Get("idempotency_key") == key
  }

  lemma ErrorFields(requestId: Json, key: Json, code: string)
    ensures RefusedFor(HostError(requestId, key, code), requestId.Or(Null), key.Or(Null), code)
  {
  }

  lemma OkFields(envelope: Json, payload: Json)
    ensures var answer := HostOk(envelope, payload);
            && answer.Get("ok") == Bool(true) && answer.Get("error") == Null && answer.Get("payload") == payload
            && answer.Get("request_id") == envelope.Get("request_id")
            && answer.Get("idempotency_key") == envelope.Get("idempotency_key")
  {
  }

  /** Every answer of the host: with the ids of the envelope, unless it is no object or storing
      failed, and either the payload stored or no payload and the reason. */
  lemma HostAnswers(envelope: Json, stored: Option<Json>)
    ensures var (answer, why) := (Answer(envelope, stored), WhyRefused(envelope, stored));
            if why.None? then
              && answer.Get("ok") == Bool(true) && answer.Get("error") == Null && answer.Get("payload") == stored.value
              && answer.Get("request_id") == envelope.Get("request_id")
              && answer.Get("idempotency_key") == envelope.Get("idempotency_key")
            else if !envelope.Object? || why.value == "native_host_failed" then RefusedFor(answer, Null, Null, why.value)
            else RefusedFor(answer, envelope.Get("request_id").Or(Null), envelope.Get("idempotency_key").Or(Null), why.value)
  {
    var why := WhyRefused(envelope, stored);
    AnswerIs(envelope, stored);
    if why.None? {
      OkFields(envelope, stored.value);
    } else {
      ErrorFields(Null, Null, why.value);
      ErrorFields(envelope.Get("request_id"), envelope.Get("idempotency_key"), why.value);
    }
  }

  /** What the sender makes of any response: malformed unless it is an object with a boolean ok;
      the code it gives, or a general one; its ids where it has any, else those of the envelope. */
  lemma ResponseMeaning(response: Json, envelope: Json)
    ensures var (reply, code) := (NormalizeResponse(response, envelope), response.Get("error").Get("code"));
            if !response.Object? || !response.Get("ok").Bool? then
              reply == Reply(false, envelope.Get("request_id").Or(Null), envelope.Get("idempotency_key").Or(Null), Null,
                             String("malformed_native_response"))
            else if response.Get("ok") == Bool(false) then
              && !reply.ok && reply.payload == Null
              && reply.requestId == envelope.Get("request_id").Or(Null)
              && reply.idempotencyKey == envelope.Get("idempotency_key").Or(Null)
              && IsFirstGiven(reply.code, code, Undefined, String("native_bridge_error"))
            else
              && reply.ok && reply.code == Null
              && IsFirstGiven(reply.requestId, response.Get("request_id"), envelope.Get("request_id"), Null)
              && IsFirstGiven(reply.idempotencyKey, response.Get("idempotency_key"), envelope.Get("idempotency_key"), Null)
              && IsFirstGiven(reply.payload, response.Get("payload"), Undefined, Null)
  {
  }

  // ---------------------------------------------------------------- runs of one bridge

  function SentKeys(sends: seq<Send>, supported: seq<string>): set<Identity> {
    if sends == [] then {}
    else Build(sends[|sends| - 1], supported, SentKeys(sends[..|sends| - 1], supported)).1
  }

  /** The answer `BuildEnvelope` gives to the send at `i` of a run. */
  function Outcome(sends: seq<Send>, supported: seq<string>, i: nat): Built
    requires i < |sends|
  {
    Build(sends[i], supported, SentKeys(sends[..i], supported)).0
  }

  lemma OutcomeOfPrefix(sends: seq<Send>, supported: seq<string>, n: nat, i: nat)
    requires i < n <= |sends|
    ensures Outcome(sends[..n], supported, i) == Outcome(sends, supported, i)
  {
    assert sends[..n][..i] == sends[..i];
  }

  /** Send `i` of a run was accepted, with this key. */
  predicate AcceptedAs(sends: seq<Send>, supported: seq<string>, i: nat, key: Identity)
    requires i < |sends|
  {
    Outcome(sends, supported, i).Accepted? && sends[i].KeyIdentity() == key
  }

  /** The set holds the keys of the accepted sends, and only those. */
  lemma {:induction false} SentKeysAreAccepted(sends: seq<Send>, supported: seq<string>, key: Identity)
    ensures key in SentKeys(sends, supported) <==> exists i :: 0 <= i < |sends| && AcceptedAs(sends, supported, i, key)
  {
    if sends != [] {
      var before := sends[..|sends| - 1];
      SentKeysAreAccepted(before, supported, key);
      forall i | 0 <= i < |before|
        ensures AcceptedAs(before, supported, i, key) <==> AcceptedAs(sends, supported, i, key)
      {
        OutcomeOfPrefix(sends, supported, |before|, i);
      }
      LastKey(sends, supported, key);
    }
  }

  lemma LastKey(sends: seq<Send>, supported: seq<string>, key: Identity)
    requires sends != []
    ensures key in SentKeys(sends, supported) <==>
            key in SentKeys(sends[..|sends| - 1], supported) || AcceptedAs(sends, supported, |sends| - 1, key)
  {
  }

  /** Over any sequence of sends, a well-formed one is turned away exactly when an earlier
      accepted one used its key. In particular a key stays used when the send that took it then
      failed in transport. */
  lemma KeysAreUsedOnce(sends: seq<Send>, supported: seq<string>, i: nat)
    requires i < |sends|
    ensures Outcome(sends, supported, i).Accepted? <==>
            sends[i].Objection(supported).None? &&
            !exists j :: 0 <= j < i && AcceptedAs(sends, supported, j, sends[i].KeyIdentity())
  {
    if sends[i].Objection(supported).None? {
      var key := sends[i].KeyIdentity();
      SentKeysAreAccepted(sends[..i], supported, key);
      forall j | 0 <= j < i
        ensures AcceptedAs(sends[..i], supported, j, key) <==> AcceptedAs(sends, supported, j, key)
      {
        OutcomeOfPrefix(sends, supported, i, j);
      }
    }
  }

  /** Two accepted envelopes carry keys that read the same only if these are objects or arrays
      held in different places. So envelopes that the host accepts, whose keys are strings, have
      pairwise distinct keys. */
  lemma AcceptedKeysAreDistinct(sends: seq<Send>, supported: seq<string>, i: nat, j: nat)
    requires i < j < |sends|
    requires Outcome(sends, supported, i).Accepted? && Outcome(sends, supported, j).Accepted?
    ensures var first, second := Outcome(sends, supported, i).envelope, Outcome(sends, supported, j).envelope;
            && (first.Get("idempotency_key") == second.Get("idempotency_key") ==>
                  (second.Get("idempotency_key").Object? || second.Get("idempotency_key").Array?) &&
                  sends[i].keyAddress != sends[j].keyAddress)
            && (ValidateEnvelope(second).None? ==> first.Get("idempotency_key") != second.Get("idempotency_key"))
  {
    KeysAreUsedOnce(sends, supported, j);
    assert !AcceptedAs(sends, supported, i, sends[j].KeyIdentity());
    KeyOfEnvelope(sends, supported, i);
    KeyOfEnvelope(sends, supported, j);
    ValidKeysAreStrings(Outcome(sends, supported, j).envelope);
  }

  lemma KeyOfEnvelope(sends: seq<Send>, supported: seq<string>, i: nat)
    requires i < |sends| && Outcome(sends, supported, i).Accepted?
    ensures sends[i].Objection(supported).None?
    ensures Outcome(sends, supported, i).envelope.Get("idempotency_key") == sends[i].Key()
  {
  }

  lemma ValidKeysAreStrings(envelope: Json)
    ensures ValidateEnvelope(envelope).None? ==> envelope.Get("idempotency_key").String?
  {
  }

  /** Equal object keys held in different places are two keys: both sends are accepted. */
  lemma EqualObjectKeys(first: Send, second: Send, supported: seq<string>)
    requires first.Objection(supported).None? && second.Objection(supported).None?
    requires first.Key().Object? && second.Key() == first.Key() && first.keyAddress != second.keyAddress
    ensures Outcome([first, second], supported, 0).Accepted? && Outcome([first, second], supported, 1).Accepted?
  {
    assert [first, second][..0] == [] && [first, second][..1] == [first];
    assert [first][..0] == [];
  }
}
