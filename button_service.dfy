/** The control-button service: create, update, delete and read buttons, and
    execute a button, which turns the stored definition into an outbound HTTP
    request, classifies and normalises what comes back, stamps the button
    after a non-preview run and writes exactly one audit row per attempt.

    The outside world is abstract: the two repositories are fields of the
    service (a map from id to button and an append-only sequence of audit
    rows), Jackson is an `ObjectMapper` oracle, and the clock, the
    authenticated principal and the HTTP transport's answer are parameters. */
module ButtonService {
  import opened Wrappers
  import opened Strings
  import opened Jackson
  import opened ControlButtons
  import opened AuditLogs
  import opened ButtonDto

  /** `getCurrentUser`: the authenticated principal's name, or "system" when
      looking it up throws (`principal` is `None` then). */
  function CurrentUser(principal: Option<string>): (user: string)
    ensures principal.Some? ==> user == principal.value
    ensures principal.None? ==> user == "system"
  {
    principal.GetOr("system")
  }

  /** `convertMapToJson`: "{}" for a null or empty map and whenever Jackson
      fails, otherwise Jackson's serialisation of the map. */
  function ConvertMapToJson(mapper: ObjectMapper, fields: Option<map<string, JsonValue>>): string
  {
    if fields.None? || fields.value == map[] then "{}"
    else
      match mapper.write(JObject(fields.value))
      case Some(text) => text
      case None => "{}"
  }

  /** The stored text is "{}" for a null or empty map and when Jackson fails;
      any other text is Jackson's serialisation of the non-empty map. */
  lemma MapToJsonCases(mapper: ObjectMapper, fields: Option<map<string, JsonValue>>)
    ensures var json := ConvertMapToJson(mapper, fields);
      && (fields.None? || fields.value == map[] ==> json == "{}")
      && (fields.Some? && mapper.write(JObject(fields.value)).None? ==> json == "{}")
      && (json == "{}" || (fields.Some? && fields.value != map[] && mapper.write(JObject(fields.value)) == Some(json)))
  {
  }

  /** `convertJsonToMap` (and `convertJsonToObjectMap`, which has the same
      body): an empty map for null, "" or "{}", and whenever Jackson fails or
      reads something that is not an object; otherwise the object read. */
  function ConvertJsonToMap(mapper: ObjectMapper, json: Option<string>): map<string, JsonValue>
  {
    if json.None? || json.value == "" || json.value == "{}" then map[]
    else
      match mapper.read(json.value)
      case Some(JObject(fields)) => fields
      case _ => map[]
  }

  /** Null, "" and "{}" read as the empty map; any other result is the object
      Jackson read from the text. */
  lemma JsonToMapCases(mapper: ObjectMapper, json: Option<string>)
    ensures var fields := ConvertJsonToMap(mapper, json);
      && (json.None? || json.value == "" || json.value == "{}" ==> fields == map[])
      && (fields == map[] || (json.Some? && mapper.read(json.value) == Some(JObject(fields))))
  {
  }

  /** A map stored as JSON text reads back as the same map: always for the
      empty map, and for a non-empty one whenever Jackson round-trips it. */
  lemma MapJsonRoundTrip(mapper: ObjectMapper, fields: map<string, JsonValue>)
    requires fields == map[] || RoundTripsObject(mapper, fields)
    ensures ConvertJsonToMap(mapper, Some(ConvertMapToJson(mapper, Some(fields)))) == fields
  {
  }

  const JsonMediaType := "application/json; charset=utf-8"

  datatype RequestBody = RequestBody(content: string, mediaType: string)

  /** The request `executeApiCall` hands to the HTTP client. */
  datatype HttpRequest = HttpRequest(
    verb: HttpMethod,
    url: string,
    headers: map<string, JsonValue>,
    body: Option<RequestBody>)

  /** `executeApiCall` up to the dispatch: the stored headers are decoded and
      attached only when the header text is present and non-empty, a JSON body
      of the input parameters is built for POST and PUT, and the four-way
      switch on the method picks the request form. */
  function BuildRequest(mapper: ObjectMapper, button: ControlButton, inputParams: map<string, JsonValue>): (request: HttpRequest)
    ensures request.verb == button.httpMethod && request.url == button.targetEndpoint
    ensures request.body.Some? <==> button.httpMethod == Post || button.httpMethod == Put
    ensures request.body.Some? ==>
      request.body.value == RequestBody(ConvertMapToJson(mapper, Some(inputParams)), JsonMediaType)
    ensures request.headers == ConvertJsonToMap(mapper, button.headers)
  {
    var headers :=
      if button.headers.Some? && button.headers.value != "" then ConvertJsonToMap(mapper, button.headers)
      else map[];
    var url := button.targetEndpoint;
    var body :=
      if button.httpMethod == Post || button.httpMethod == Put then
        Some(RequestBody(ConvertMapToJson(mapper, Some(inputParams)), JsonMediaType))
      else None;
    match button.httpMethod
    case Get => HttpRequest(Get, url, headers, None)
    case Post => HttpRequest(Post, url, headers, body)
    case Put => HttpRequest(Put, url, headers, body)
    case Delete => HttpRequest(Delete, url, headers, None)
  }

  /** The response-parsing branch of `executeButton`: for the JSON format and
      a non-empty body, the value Jackson reads, falling back to the raw text
      when it fails; the raw text for every other format or an empty body. */
  function NormalizeResponse(mapper: ObjectMapper, format: OutputFormat, body: string): (data: JsonValue)
    ensures format != Json || body == "" ==> data == JString(body)
    ensures format == Json && body != "" && mapper.read(body).Some? ==> data == mapper.read(body).value
    ensures format == Json && body != "" && mapper.read(body).None? ==> data == JString(body)
  {
    if format == Json && body != "" then
      match mapper.read(body)
      case Some(value) => value
      case None => JString(body)
    else JString(body)
  }

  /** What the HTTP client gives back for a dispatched request: an OkHttp
      `Response` (status code, `isSuccessful()`, status message, body if any),
      or the exception the call throws, whose message may be null. */
  datatype HttpOutcome =
    | Response(code: int, isSuccessful: bool, statusMessage: string, body: Option<string>)
    | TransportException(exceptionMessage: Option<string>)

  /** The clock readings of one execution: `System.currentTimeMillis()` at the
      start and after the call, and `LocalDateTime.now()`, which also stands
      for the creation timestamp of the audit row. */
  datatype Clock = Clock(startMillis: int, endMillis: int, now: Timestamp)

  /** The response body as `executeButton` reads it: "" when there is none. */
  function BodyText(transport: HttpOutcome): string
    requires transport.Response?
  {
    transport.body.GetOr("")
  }

  /** The `ExecuteButtonResponse` `executeButton` returns once the button has
      passed the active check: from the try block when a response came back,
      from the catch block when the call threw. */
  function ExecutionResponse(mapper: ObjectMapper, button: ControlButton, transport: HttpOutcome, clock: Clock): ExecuteButtonResponse
  {
    var elapsed := clock.endMillis - clock.startMillis;
    match transport
    case Response(code, ok, _, _) =>
      ExecuteButtonResponse(
        ok,
        if ok then "Execution successful" else "Execution failed",
        NormalizeResponse(mapper, button.expectedOutputFormat, BodyText(transport)),
        Some(code),
        elapsed)
    case TransportException(message) =>
      ExecuteButtonResponse(false, "Execution failed: " + NullableText(message), JNull, None, elapsed)
  }

  /** The `action` column: the method's name and the endpoint. */
  function ActionDescriptor(button: ControlButton): string {
    HttpMethodName(button.httpMethod) + " " + button.targetEndpoint
  }

  /** The audit row the `finally` block saves for an attempt on `button`
      (stored under `buttonId`), whatever the transport answered. */
  function AttemptAudit(
    mapper: ObjectMapper, auditId: int, buttonId: int, button: ControlButton,
    inputParams: map<string, JsonValue>, user: string, transport: HttpOutcome, clock: Clock): AuditLog
  {
    var elapsed := clock.endMillis - clock.startMillis;
    var payload := Some(ConvertMapToJson(mapper, Some(inputParams)));
    match transport
    case Response(code, ok, statusMessage, _) =>
      AuditLog(
        auditId, buttonId, user, clock.now, ActionDescriptor(button), payload,
        Some(BodyText(transport)),
        if ok then Success else Failure,
        if ok then None else Some("HTTP " + IntToString(code) + ": " + statusMessage),
        Some(elapsed))
    case TransportException(message) =>
      AuditLog(auditId, buttonId, user, clock.now, ActionDescriptor(button), payload, None, Failure, message, Some(elapsed))
  }

  /** The button store after an attempt: the button's `lastExecutedAt` is set
      when a response came back and the run is not a preview (a null
      `isPreview` is not a preview); otherwise nothing changes. */
  function StampedButtons(
    buttons: map<int, ControlButton>, id: int, isPreview: Option<bool>, transport: HttpOutcome, now: Timestamp): map<int, ControlButton>
    requires id in buttons
  {
    if transport.Response? && isPreview != Some(true) then
      buttons[id := buttons[id].(lastExecutedAt := Some(now))]
    else buttons
  }

  /** Audit status and returned success flag both follow `isSuccessful()`:
      SUCCESS exactly for a successful response, FAILURE otherwise, never
      TIMEOUT; both carry the same measured duration. */
  lemma AuditStatusFollowsOutcome(
    mapper: ObjectMapper, auditId: int, buttonId: int, button: ControlButton,
    inputParams: map<string, JsonValue>, user: string, transport: HttpOutcome, clock: Clock)
    ensures var log := AttemptAudit(mapper, auditId, buttonId, button, inputParams, user, transport, clock);
      var response := ExecutionResponse(mapper, button, transport, clock);
      && log.status != Timeout
      && (log.status == Success <==> transport.Response? && transport.isSuccessful)
      && (response.success <==> log.status == Success)
      && (log.errorMessage.None? <==> response.success || (transport.TransportException? && transport.exceptionMessage.None?))
      && log.executionTimeMs == Some(response.executionTimeMs)
      && response.executionTimeMs == clock.endMillis - clock.startMillis
  {
  }

  /** When a response came back, whether successful or not: the status code is
      returned, the message says whether the call succeeded, the data is the
      body normalised by the expected format, and the audit row records the
      body and the time the attempt was made. */
  lemma ResponseExecution(
    mapper: ObjectMapper, auditId: int, buttonId: int, button: ControlButton,
    inputParams: map<string, JsonValue>, user: string, transport: HttpOutcome, clock: Clock)
    requires transport.Response?
    ensures var log := AttemptAudit(mapper, auditId, buttonId, button, inputParams, user, transport, clock);
      var response := ExecutionResponse(mapper, button, transport, clock);
      && response.success == transport.isSuccessful
      && response.statusCode == Some(transport.code)
      && response.message == (if transport.isSuccessful then "Execution successful" else "Execution failed")
      && response.data == NormalizeResponse(mapper, button.expectedOutputFormat, BodyText(transport))
      && log.responseData == Some(BodyText(transport))
      && log.executedAt == clock.now
  {
  }

  /** An HTTP-error response is a well-formed failure: the status code is
      returned, the message is "Execution failed", the body is still
      normalised and recorded, and the audit error reads "HTTP <code>: <status
      message>", from which the code can be read back. */
  lemma HttpErrorResponse(
    mapper: ObjectMapper, auditId: int, buttonId: int, button: ControlButton,
    inputParams: map<string, JsonValue>, user: string, transport: HttpOutcome, clock: Clock)
    requires transport.Response? && !transport.isSuccessful
    ensures var log := AttemptAudit(mapper, auditId, buttonId, button, inputParams, user, transport, clock);
      var response := ExecutionResponse(mapper, button, transport, clock);
      && response.statusCode == Some(transport.code)
      && response.message == "Execution failed"
      && response.data == NormalizeResponse(mapper, button.expectedOutputFormat, BodyText(transport))
      && log.responseData == Some(BodyText(transport))
      && log.errorMessage == Some("HTTP " + IntToString(transport.code) + ": " + transport.statusMessage)
      && forall code: int :: log.errorMessage == Some("HTTP " + IntToString(code) + ": " + transport.statusMessage) ==> code == transport.code
  {
    var log := AttemptAudit(mapper, auditId, buttonId, button, inputParams, user, transport, clock);
    forall code: int | log.errorMessage == Some("HTTP " + IntToString(code) + ": " + transport.statusMessage)
      ensures code == transport.code
    {
      HttpErrorCodeReadable(code, transport.code, transport.statusMessage);
    }
  }

  /** "HTTP <code>: <message>" determines the code. */
  lemma HttpErrorCodeReadable(a: int, b: int, message: string)
    requires "HTTP " + IntToString(a) + ": " + message == "HTTP " + IntToString(b) + ": " + message
    ensures a == b
  {
    var sa, sb := IntToString(a), IntToString(b);
    var ta, tb := "HTTP " + sa + ": " + message, "HTTP " + sb + ": " + message;
    assert |sa| == |sb|;
    assert sa == ta[5..5 + |sa|] && sb == tb[5..5 + |sb|];
    IntToStringInjective(a, b);
  }

  /** A call that throws is a failure without a status code: the message is
      "Execution failed: " and the exception's message ("null" when it has
      none), the data is null, and the audit row keeps the exception's message
      and no response data. */
  lemma TransportFailure(
    mapper: ObjectMapper, auditId: int, buttonId: int, button: ControlButton,
    inputParams: map<string, JsonValue>, user: string, transport: HttpOutcome, clock: Clock)
    requires transport.TransportException?
    ensures var log := AttemptAudit(mapper, auditId, buttonId, button, inputParams, user, transport, clock);
      var response := ExecutionResponse(mapper, button, transport, clock);
      && !response.success
      && response.statusCode.None?
      && response.data == JNull
      && response.message == "Execution failed: " + NullableText(transport.exceptionMessage)
      && log.status == Failure
      && log.errorMessage == transport.exceptionMessage
      && log.responseData.None?
  {
  }

  /** The audit row names the button, the caller, the method and endpoint, and
      records as request payload, whatever the method, the JSON of the input
      parameters ("{}" when they are null or empty), which is exactly the body
      sent for POST and PUT. */
  lemma AuditRecordsAttempt(
    mapper: ObjectMapper, auditId: int, buttonId: int, button: ControlButton,
    request: ExecuteButtonRequest, principal: Option<string>, transport: HttpOutcome, clock: Clock)
    ensures var inputParams := request.inputParameters.GetOr(map[]);
      var log := AttemptAudit(mapper, auditId, buttonId, button, inputParams, CurrentUser(principal), transport, clock);
      var sent := BuildRequest(mapper, button, inputParams);
      && log.buttonId == buttonId
      && log.executedBy == CurrentUser(principal)
      && log.action == HttpMethodName(button.httpMethod) + " " + button.targetEndpoint
      && log.requestPayload == Some(ConvertMapToJson(mapper, request.inputParameters))
      && (request.inputParameters.None? ==> log.requestPayload == Some("{}"))
      && (sent.body.Some? ==> log.requestPayload == Some(sent.body.value.content))
  {
  }

  /** A preview, or a call that threw, leaves every button as it was; any
      other run that got a response, even an HTTP error, changes exactly the
      executed button's `lastExecutedAt`, to the current time. */
  lemma StampOnlyAfterNonPreviewResponse(
    buttons: map<int, ControlButton>, id: int, isPreview: Option<bool>, transport: HttpOutcome, now: Timestamp)
    requires id in buttons
    ensures var after := StampedButtons(buttons, id, isPreview, transport, now);
      && after.Keys == buttons.Keys
      && (forall k | k in buttons && k != id :: after[k] == buttons[k])
      && (isPreview == Some(true) || transport.TransportException? ==> after == buttons)
      && (isPreview != Some(true) && transport.Response? ==>
            after[id].lastExecutedAt == Some(now) && after[id] == buttons[id].(lastExecutedAt := Some(now)))
  {
  }

  /** The button `createButton` builds from a validated request: headers and
      payload parameters stored as JSON text, validation and preview enabled
      unless the request says otherwise, active, never executed, created by the
      current user at `now`. */
  function NewButton(mapper: ObjectMapper, request: CreateButtonRequest, id: int, user: string, now: Timestamp): ControlButton
    requires IsValidCreateRequest(request)
  {
    ControlButton(
      id := id,
      displayLabel := request.displayLabel.value,
      icon := request.icon,
      actionType := request.actionType.value,
      targetEndpoint := request.targetEndpoint.value,
      httpMethod := request.httpMethod.value,
      headers := Some(ConvertMapToJson(mapper, request.headers)),
      payloadParameters := Some(ConvertMapToJson(mapper, request.payloadParameters)),
      expectedOutputFormat := request.expectedOutputFormat.value,
      validationEnabled := request.validationEnabled.GetOr(true),
      validationSchema := request.validationSchema,
      previewEnabled := request.previewEnabled.GetOr(true),
      createdBy := user,
      createdAt := now,
      lastExecutedAt := None,
      category := request.category,
      active := true)
  }

  /** A new button is enabled for validation and preview unless the request
      says otherwise, active, never executed, has a non-blank label and
      endpoint, and always stores header and payload texts. */
  lemma NewButtonDefaults(mapper: ObjectMapper, request: CreateButtonRequest, id: int, user: string, now: Timestamp)
    requires IsValidCreateRequest(request)
    ensures var button := NewButton(mapper, request, id, user, now);
      && button.id == id && button.createdBy == user && button.createdAt == now
      && (request.validationEnabled.None? ==> button.validationEnabled)
      && (request.previewEnabled.None? ==> button.previewEnabled)
      && button.active && button.lastExecutedAt.None?
      && !IsBlank(button.displayLabel) && !IsBlank(button.targetEndpoint)
      && button.headers.Some? && button.payloadParameters.Some?
  {
  }

  /** `convertToResponse`: the button with its header and payload texts decoded. */
  function ToResponse(mapper: ObjectMapper, button: ControlButton): ButtonResponse
  {
    ButtonResponse(
      button.id, button.displayLabel, button.icon, button.actionType, button.targetEndpoint,
      button.httpMethod,
      ConvertJsonToMap(mapper, button.headers),
      ConvertJsonToMap(mapper, button.payloadParameters),
      button.expectedOutputFormat, button.validationEnabled, button.validationSchema,
      button.previewEnabled, button.createdBy, button.createdAt, button.lastExecutedAt,
      button.category, button.active)
  }

  /** A created button reads back with the headers and payload parameters it
      was created with (an absent map reads back empty), whenever Jackson
      round-trips them. */
  lemma CreatedMapsReadBack(mapper: ObjectMapper, request: CreateButtonRequest, id: int, user: string, now: Timestamp)
    requires IsValidCreateRequest(request)
    requires var h := request.headers.GetOr(map[]); h == map[] || RoundTripsObject(mapper, h)
    requires var p := request.payloadParameters.GetOr(map[]); p == map[] || RoundTripsObject(mapper, p)
    ensures var response := ToResponse(mapper, NewButton(mapper, request, id, user, now));
      && response.headers == request.headers.GetOr(map[])
      && response.payloadParameters == request.payloadParameters.GetOr(map[])
  {
    var button := NewButton(mapper, request, id, user, now);
    assert button.headers == Some(ConvertMapToJson(mapper, request.headers));
    assert button.payloadParameters == Some(ConvertMapToJson(mapper, request.payloadParameters));
    StoredMapReadsBack(mapper, request.headers);
    StoredMapReadsBack(mapper, request.payloadParameters);
  }

  /** A possibly null map stored as JSON text reads back as the map, or as
      the empty map for null. */
  lemma StoredMapReadsBack(mapper: ObjectMapper, fields: Option<map<string, JsonValue>>)
    requires var m := fields.GetOr(map[]); m == map[] || RoundTripsObject(mapper, m)
    ensures ConvertJsonToMap(mapper, Some(ConvertMapToJson(mapper, fields))) == fields.GetOr(map[])
  {
    MapJsonRoundTrip(mapper, fields.GetOr(map[]));
  }

  /** `updateButton`'s field-by-field application: every field present in the
      request overwrites the stored one (maps are stored as their JSON text),
      every absent field is kept; id, creator, creation time and
      `lastExecutedAt` are never touched. */
  function ApplyUpdate(mapper: ObjectMapper, button: ControlButton, request: UpdateButtonRequest): ControlButton {
    ControlButton(
      button.id,
      request.displayLabel.GetOr(button.displayLabel),
      if request.icon.Some? then request.icon else button.icon,
      request.actionType.GetOr(button.actionType),
      request.targetEndpoint.GetOr(button.targetEndpoint),
      request.httpMethod.GetOr(button.httpMethod),
      if request.headers.Some? then Some(ConvertMapToJson(mapper, request.headers)) else button.headers,
      if request.payloadParameters.Some? then Some(ConvertMapToJson(mapper, request.payloadParameters))
      else button.payloadParameters,
      request.expectedOutputFormat.GetOr(button.expectedOutputFormat),
      request.validationEnabled.GetOr(button.validationEnabled),
      if request.validationSchema.Some? then request.validationSchema else button.validationSchema,
      request.previewEnabled.GetOr(button.previewEnabled),
      button.createdBy,
      button.createdAt,
      button.lastExecutedAt,
      if request.category.Some? then request.category else button.category,
      request.active.GetOr(button.active))
  }

  /** An update never touches the id, the creator, the creation time or
      `lastExecutedAt`; every field present in the request replaces the
      stored one (the two maps as their JSON text) and every absent field
      keeps it. */
  lemma UpdateKeepsIdentity(mapper: ObjectMapper, button: ControlButton, request: UpdateButtonRequest)
    ensures var updated := ApplyUpdate(mapper, button, request);
      && updated.id == button.id && updated.createdBy == button.createdBy
      && updated.createdAt == button.createdAt && updated.lastExecutedAt == button.lastExecutedAt
      && updated.displayLabel == request.displayLabel.GetOr(button.displayLabel)
      && updated.icon == (if request.icon.Some? then request.icon else button.icon)
      && updated.actionType == request.actionType.GetOr(button.actionType)
      && updated.targetEndpoint == request.targetEndpoint.GetOr(button.targetEndpoint)
      && updated.httpMethod == request.httpMethod.GetOr(button.httpMethod)
      && updated.headers == (if request.headers.Some? then Some(ConvertMapToJson(mapper, request.headers)) else button.headers)
      && updated.payloadParameters
           == (if request.payloadParameters.Some? then Some(ConvertMapToJson(mapper, request.payloadParameters)) else button.payloadParameters)
      && updated.expectedOutputFormat == request.expectedOutputFormat.GetOr(button.expectedOutputFormat)
      && updated.validationEnabled == request.validationEnabled.GetOr(button.validationEnabled)
      && updated.validationSchema == (if request.validationSchema.Some? then request.validationSchema else button.validationSchema)
      && updated.previewEnabled == request.previewEnabled.GetOr(button.previewEnabled)
      && updated.category == (if request.category.Some? then request.category else button.category)
      && updated.active == request.active.GetOr(button.active)
  {
  }

  const EmptyUpdate := UpdateButtonRequest(None, None, None, None, None, None, None, None, None, None, None, None, None)

  /** An update with no field set changes nothing, and applying the same
      update twice is the same as applying it once. */
  lemma UpdateIsPartialAndIdempotent(mapper: ObjectMapper, button: ControlButton, request: UpdateButtonRequest)
    ensures ApplyUpdate(mapper, button, EmptyUpdate) == button
    ensures ApplyUpdate(mapper, ApplyUpdate(mapper, button, request), request) == ApplyUpdate(mapper, button, request)
  {
  }

  /** Every row keyed by its own id, all below `next`. */
  ghost predicate KeyedBelow(buttons: map<int, ControlButton>, next: int) {
    forall k | k in buttons :: buttons[k].id == k && 1 <= k < next
  }

  /** Inserting a button under its own id, the next one to hand out, keeps
      the rows keyed and below the new next id. */
  lemma KeyedInsert(buttons: map<int, ControlButton>, next: int, button: ControlButton)
    requires 1 <= next && KeyedBelow(buttons, next) && button.id == next
    ensures next !in buttons && KeyedBelow(buttons[next := button], next + 1)
  {
    var after := buttons[next := button];
    forall k | k in after ensures after[k].id == k && 1 <= k < next + 1 {
      if k != next {
        assert k in buttons;
      }
    }
  }

  /** Replacing a row by one with the same id keeps the rows keyed. */
  lemma KeyedReplace(buttons: map<int, ControlButton>, next: int, id: int, button: ControlButton)
    requires KeyedBelow(buttons, next) && id in buttons && button.id == id
    ensures KeyedBelow(buttons[id := button], next)
  {
    var after := buttons[id := button];
    forall k | k in after ensures after[k].id == k && 1 <= k < next {
      assert k in buttons;
    }
  }

  /** Audit rows numbered from 1 in order, each naming a handed-out button id
      below `next`, none with status TIMEOUT. */
  ghost predicate AuditRowsBelow(logs: seq<AuditLog>, next: int) {
    forall i | 0 <= i < |logs| :: logs[i].id == i + 1 && 1 <= logs[i].buttonId < next && logs[i].status != Timeout
  }

  /** Appending the next-numbered row for a handed-out button keeps the rows well formed. */
  lemma AuditAppend(logs: seq<AuditLog>, next: int, row: AuditLog)
    requires AuditRowsBelow(logs, next)
    requires row.id == |logs| + 1 && 1 <= row.buttonId < next && row.status != Timeout
    ensures AuditRowsBelow(logs + [row], next)
  {
    var after := logs + [row];
    forall i | 0 <= i < |after| ensures after[i].id == i + 1 && 1 <= after[i].buttonId < next && after[i].status != Timeout {
      if i < |logs| {
        assert after[i] == logs[i];
      }
    }
  }

  /** The try/catch/finally of `executeButton` for one attempt on `button`:
      the response (or the transport's exception) becomes the returned
      outcome and the audit row's fields, filled in as the attempt proceeds;
      `stamp` says whether the button's `lastExecutedAt` is set, which happens
      inside the try block for a non-preview run that got a response. */
  method Attempt(
    mapper: ObjectMapper, auditId: int, buttonId: int, button: ControlButton, inputParams: map<string, JsonValue>,
    user: string, isPreview: Option<bool>, transport: HttpOutcome, clock: Clock)
    returns (response: ExecuteButtonResponse, auditLog: AuditLog, stamp: bool)
    ensures response == ExecutionResponse(mapper, button, transport, clock)
    ensures auditLog == AttemptAudit(mapper, auditId, buttonId, button, inputParams, user, transport, clock)
    ensures stamp <==> transport.Response? && isPreview != Some(true)
  {
    var action := HttpMethodName(button.httpMethod) + " " + button.targetEndpoint;
    var responseData: Option<string> := None;
    var status: ExecutionStatus;
    var errorMessage: Option<string> := None;
    var requestPayload := ConvertMapToJson(mapper, Some(inputParams));
    var executionTime := clock.endMillis - clock.startMillis;
    stamp := false;
    match transport {
      case Response(code, isSuccessful, statusMessage, body) =>
        var responseBody := body.GetOr("");
        var data := NormalizeResponse(mapper, button.expectedOutputFormat, responseBody);
        response := ExecuteButtonResponse(
          isSuccessful, if isSuccessful then "Execution successful" else "Execution failed",
          data, Some(code), executionTime);
        responseData := Some(responseBody);
        status := if isSuccessful then Success else Failure;
        if !isSuccessful {
          errorMessage := Some("HTTP " + IntToString(code) + ": " + statusMessage);
        }
        stamp := isPreview != Some(true);
      case TransportException(message) =>
        status := Failure;
        errorMessage := message;
        response := ExecuteButtonResponse(false, "Execution failed: " + NullableText(message), JNull, None, executionTime);
    }
    auditLog := AuditLog(
      auditId, buttonId, user, clock.now, action, Some(requestPayload),
      responseData, status, errorMessage, Some(executionTime));
  }

  /** The service with its two repositories. `buttons` are the rows of
      `control_buttons` by id; `auditLogs` are the rows of `audit_logs` in
      insertion order; ids are handed out by the database's identity column. */
  class ControlButtonService {
    var buttons: map<int, ControlButton>
    var nextButtonId: int
    var auditLogs: seq<AuditLog>
    const mapper: ObjectMapper

    /** Button rows are keyed by their own id, below the next id to hand out;
        audit rows are numbered from 1 in insertion order, each names a
        button id that was handed out, and none has status TIMEOUT. */
    ghost predicate Valid()
      reads this
    {
      && nextButtonId >= 1
      && KeyedBelow(buttons, nextButtonId)
      && AuditRowsBelow(auditLogs, nextButtonId)
    }

    constructor (mapper: ObjectMapper)
      ensures Valid()
      ensures buttons == map[] && auditLogs == [] && this.mapper == mapper
    {
      buttons := map[];
      nextButtonId := 1;
      auditLogs := [];
      this.mapper := mapper;
    }

    /** `createButton`: stores a new button built from a validated request
        under a fresh id and returns it as a response. */
    method CreateButton(request: CreateButtonRequest, principal: Option<string>, now: Timestamp)
      returns (response: ButtonResponse)
      requires Valid() && IsValidCreateRequest(request)
      modifies this
      ensures Valid()
      ensures old(nextButtonId) !in old(buttons) && nextButtonId == old(nextButtonId) + 1
      ensures buttons == old(buttons)[old(nextButtonId) := NewButton(mapper, request, old(nextButtonId), CurrentUser(principal), now)]
      ensures auditLogs == old(auditLogs)
      ensures response == ToResponse(mapper, buttons[old(nextButtonId)])
    {
      var currentUser := CurrentUser(principal);
      var button := NewButton(mapper, request, nextButtonId, currentUser, now);
      KeyedInsert(buttons, nextButtonId, button);
      buttons := buttons[nextButtonId := button];
      nextButtonId := nextButtonId + 1;
      response := ToResponse(mapper, button);
    }

    /** `updateButton`: saves the stored button with the present fields of the
        request applied (ApplyUpdate), or fails when the id is unknown. */
    method UpdateButton(id: int, request: UpdateButtonRequest) returns (result: Result<ButtonResponse>)
      requires Valid()
      modifies this
      ensures Valid()
      ensures nextButtonId == old(nextButtonId) && auditLogs == old(auditLogs)
      ensures id !in old(buttons) ==>
        result == Err("Button not found with id: " + IntToString(id)) && buttons == old(buttons)
      ensures id in old(buttons) ==>
        && buttons == old(buttons)[id := ApplyUpdate(mapper, old(buttons)[id], request)]
        && result == Ok(ToResponse(mapper, buttons[id]))
    {
      if id !in buttons {
        return Err("Button not found with id: " + IntToString(id));
      }
      var button := ApplyUpdate(mapper, buttons[id], request);
      KeyedReplace(buttons, nextButtonId, id, button);
      buttons := buttons[id := button];
      result := Ok(ToResponse(mapper, button));
    }

    /** `deleteButton`: removes the button, or fails when the id is unknown.
        Audit rows of the button stay. */
    method DeleteButton(id: int) returns (error: Option<string>)
      requires Valid()
      modifies this
      ensures Valid()
      ensures error.None? <==> id in old(buttons)
      ensures error.Some? ==> error.value == "Button not found with id: " + IntToString(id)
      ensures buttons == old(buttons) - {id}
      ensures nextButtonId == old(nextButtonId) && auditLogs == old(auditLogs)
    {
      if id !in buttons {
        return Some("Button not found with id: " + IntToString(id));
      }
      buttons := buttons - {id};
      error := None;
    }

    /** `getButtonById`. */
    method GetButtonById(id: int) returns (result: Result<ButtonResponse>)
      requires Valid()
      ensures id in buttons <==> result.Ok?
      ensures id in buttons ==> result.value == ToResponse(mapper, buttons[id]) && result.value.id == id
      ensures id !in buttons ==> result == Err("Button not found with id: " + IntToString(id))
    {
      if id !in buttons {
        return Err("Button not found with id: " + IntToString(id));
      }
      result := Ok(ToResponse(mapper, buttons[id]));
    }

    /** `executeButton`. An unknown id or an inactive button fails before
        anything happens: no request is sent, no button changes and no audit
        row is written. Otherwise the request built from the button and the
        input parameters is sent, the response (or the transport's exception)
        is turned into the returned outcome, the button is stamped unless the
        run is a preview or the call threw, and exactly one audit row is
        appended, on every path. */
    method ExecuteButton(id: int, request: ExecuteButtonRequest, principal: Option<string>, clock: Clock, transport: HttpOutcome)
      returns (result: Result<ExecuteButtonResponse>, sent: Option<HttpRequest>)
      requires Valid()
      modifies this
      ensures Valid()
      ensures nextButtonId == old(nextButtonId)
      ensures result.Ok? <==> id in old(buttons) && old(buttons)[id].active
      ensures id !in old(buttons) ==> result == Err("Button not found with id: " + IntToString(id))
      ensures id in old(buttons) && !old(buttons)[id].active ==> result == Err("Button is inactive")
      ensures result.Err? ==> sent.None? && buttons == old(buttons) && auditLogs == old(auditLogs)
      ensures result.Ok? ==>
        var button := old(buttons)[id];
        var inputParams := request.inputParameters.GetOr(map[]);
        && sent == Some(BuildRequest(mapper, button, inputParams))
        && result.value == ExecutionResponse(mapper, button, transport, clock)
        && buttons == StampedButtons(old(buttons), id, request.isPreview, transport, clock.now)
        && auditLogs == old(auditLogs) +
             [AttemptAudit(mapper, |old(auditLogs)| + 1, id, button, inputParams, CurrentUser(principal), transport, clock)]
    {
      var currentUser := CurrentUser(principal);
      if id !in buttons {
        return Err("Button not found with id: " + IntToString(id)), None;
      }
      var button := buttons[id];
      if !button.active {
        return Err("Button is inactive"), None;
      }

      var inputParams := request.inputParameters.GetOr(map[]);
      sent := Some(BuildRequest(mapper, button, inputParams));
      var response, auditLog, stamp := Attempt(mapper, |auditLogs| + 1, id, button, inputParams, currentUser, request.isPreview, transport, clock);
      if stamp {
        KeyedReplace(buttons, nextButtonId, id, button.(lastExecutedAt := Some(clock.now)));
        buttons := buttons[id := button.(lastExecutedAt := Some(clock.now))];
      }
      // The finally block: the single audit write.
      AuditAppend(auditLogs, nextButtonId, auditLog);
      auditLogs := auditLogs + [auditLog];
      result := Ok(response);
    }
  }

  /** The "Ping" scenario: a GET button with JSON output, executed without
      inputs and not as a preview, against a 200 response whose body Jackson
      reads as {"ok": true}: no request body is sent, the outcome is a success
      with status 200 and the parsed data, and the button gets stamped. */
  lemma PingScenario(mapper: ObjectMapper, button: ControlButton, clock: Clock)
    requires button.httpMethod == Get && button.expectedOutputFormat == Json
    requires button.targetEndpoint == "https://example.test/ping"
    requires mapper.read("{\"ok\":true}") == Some(JObject(map["ok" := JBool(true)]))
    ensures var transport := Response(200, true, "OK", Some("{\"ok\":true}"));
      var sent := BuildRequest(mapper, button, map[]);
      var response := ExecutionResponse(mapper, button, transport, clock);
      var after := StampedButtons(map[button.id := button], button.id, None, transport, clock.now);
      && sent.verb == Get && sent.url == "https://example.test/ping" && sent.body.None?
      && response.success && response.statusCode == Some(200)
      && response.data == JObject(map["ok" := JBool(true)])
      && after[button.id].lastExecutedAt == Some(clock.now)
  {
  }
}
