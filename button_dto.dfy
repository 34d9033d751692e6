/** The request and response objects of the control-panel API, with the Bean
    Validation constraints of the create request as a predicate. A Java
    `null` is `None`. */
module ButtonDto {
  import opened Wrappers
  import opened Strings
  import opened Jackson
  import opened ControlButtons

  datatype CreateButtonRequest = CreateButtonRequest(
    displayLabel: Option<string>,
    icon: Option<string>,
    actionType: Option<ActionType>,
    targetEndpoint: Option<string>,
    httpMethod: Option<HttpMethod>,
    headers: Option<map<string, JsonValue>>,
    payloadParameters: Option<map<string, JsonValue>>,
    expectedOutputFormat: Option<OutputFormat>,
    validationEnabled: Option<bool>,
    validationSchema: Option<string>,
    previewEnabled: Option<bool>,
    category: Option<string>)

  /** `@NotBlank`: present and not blank. */
  predicate NotBlank(s: Option<string>) {
    s.Some? && !IsBlank(s.value)
  }

  /** The constraints `@Valid` enforces on a create request: `@NotBlank` label
      and endpoint, `@NotNull` action type, method and output format. Every
      other field may be null. */
  predicate IsValidCreateRequest(r: CreateButtonRequest) {
    && NotBlank(r.displayLabel)
    && r.actionType.Some?
    && NotBlank(r.targetEndpoint)
    && r.httpMethod.Some?
    && r.expectedOutputFormat.Some?
  }

  /** A create request is valid exactly when label and endpoint are present and
      each holds a character above U+0020, and action type, method and output
      format are present. */
  lemma ValidCreateRequestIff(r: CreateButtonRequest)
    ensures IsValidCreateRequest(r) <==>
      && r.displayLabel.Some? && (exists k | 0 <= k < |r.displayLabel.value| :: r.displayLabel.value[k] > ' ')
      && r.targetEndpoint.Some? && (exists k | 0 <= k < |r.targetEndpoint.value| :: r.targetEndpoint.value[k] > ' ')
      && r.actionType.Some? && r.httpMethod.Some? && r.expectedOutputFormat.Some?
  {
    if r.displayLabel.Some? {
      BlankIffNoVisibleChar(r.displayLabel.value);
    }
    if r.targetEndpoint.Some? {
      BlankIffNoVisibleChar(r.targetEndpoint.value);
    }
  }

  /** A partial update: every field, `active` included, is optional, and only
      the present ones are applied. */
  datatype UpdateButtonRequest = UpdateButtonRequest(
    displayLabel: Option<string>,
    icon: Option<string>,
    actionType: Option<ActionType>,
    targetEndpoint: Option<string>,
    httpMethod: Option<HttpMethod>,
    headers: Option<map<string, JsonValue>>,
    payloadParameters: Option<map<string, JsonValue>>,
    expectedOutputFormat: Option<OutputFormat>,
    validationEnabled: Option<bool>,
    validationSchema: Option<string>,
    previewEnabled: Option<bool>,
    category: Option<string>,
    active: Option<bool>)

  /** A button as the API returns it, with headers and payload parameters
      decoded from their stored JSON text. */
  datatype ButtonResponse = ButtonResponse(
    id: int,
    displayLabel: string,
    icon: Option<string>,
    actionType: ActionType,
    targetEndpoint: string,
    httpMethod: HttpMethod,
    headers: map<string, JsonValue>,
    payloadParameters: map<string, JsonValue>,
    expectedOutputFormat: OutputFormat,
    validationEnabled: bool,
    validationSchema: Option<string>,
    previewEnabled: bool,
    createdBy: string,
    createdAt: Timestamp,
    lastExecutedAt: Option<Timestamp>,
    category: Option<string>,
    active: bool)

  /** Both fields may be null; a null `isPreview` is not a preview. */
  datatype ExecuteButtonRequest = ExecuteButtonRequest(
    inputParameters: Option<map<string, JsonValue>>,
    isPreview: Option<bool>)

  /** The outcome of an execution. `data` is the `Object` the service fills
      in, `JNull` when it is left null; `statusCode` is absent when no HTTP
      response was obtained. The service sets every other field on every path. */
  datatype ExecuteButtonResponse = ExecuteButtonResponse(
    success: bool,
    message: string,
    data: JsonValue,
    statusCode: Option<int>,
    executionTimeMs: int)
}
