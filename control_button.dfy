/** The `control_buttons` entity: a stored, declarative description of one
    outbound REST call, and the three enums it is built from. */
module ControlButtons {
  import opened Wrappers

  /** A `LocalDateTime`, as a reading of a single clock. */
  type Timestamp = int

  /** The kinds of action a button can perform: only a REST call. */
  datatype ActionType = RestApiCall

  datatype HttpMethod = Get | Post | Put | Delete

  datatype OutputFormat = Json | PlainText | Xml

  /** The enum constant's name, as `toString()` returns it and as
      `@Enumerated(EnumType.STRING)` stores it. */
  function ActionTypeName(a: ActionType): string {
    match a
    case RestApiCall => "REST_API_CALL"
  }

  function HttpMethodName(m: HttpMethod): string {
    match m
    case Get => "GET"
    case Post => "POST"
    case Put => "PUT"
    case Delete => "DELETE"
  }

  function OutputFormatName(f: OutputFormat): string {
    match f
    case Json => "JSON"
    case PlainText => "PLAIN_TEXT"
    case Xml => "XML"
  }

  /** `ActionType.valueOf`: the stored name read back. */
  function ParseActionType(name: string): (a: Option<ActionType>)
    ensures a.Some? <==> name == "REST_API_CALL"
    ensures a.Some? ==> ActionTypeName(a.value) == name
  {
    if name == "REST_API_CALL" then Some(RestApiCall) else None
  }

  /** `HttpMethod.valueOf`: exactly the four names GET, POST, PUT and DELETE are methods. */
  function ParseHttpMethod(name: string): (m: Option<HttpMethod>)
    ensures m.Some? <==> name in {"GET", "POST", "PUT", "DELETE"}
    ensures m.Some? ==> HttpMethodName(m.value) == name
  {
    match name
    case "GET" => Some(Get)
    case "POST" => Some(Post)
    case "PUT" => Some(Put)
    case "DELETE" => Some(Delete)
    case _ => None
  }

  /** `OutputFormat.valueOf`: exactly JSON, PLAIN_TEXT and XML are formats. */
  function ParseOutputFormat(name: string): (f: Option<OutputFormat>)
    ensures f.Some? <==> name in {"JSON", "PLAIN_TEXT", "XML"}
    ensures f.Some? ==> OutputFormatName(f.value) == name
  {
    match name
    case "JSON" => Some(Json)
    case "PLAIN_TEXT" => Some(PlainText)
    case "XML" => Some(Xml)
    case _ => None
  }

  /** Every enum value survives being stored by name and read back. */
  lemma EnumNamesRoundTrip(a: ActionType, m: HttpMethod, f: OutputFormat)
    ensures ParseActionType(ActionTypeName(a)) == Some(a)
    ensures ParseHttpMethod(HttpMethodName(m)) == Some(m)
    ensures ParseOutputFormat(OutputFormatName(f)) == Some(f)
  {
  }

  /** A stored button. The columns declared `nullable = false` (label, action
      type, endpoint, method, output format, creator, creation time, active)
      have plain types; the nullable ones are `Option`s. Headers and payload
      parameters are kept as JSON text, not as maps. The `label` column is
      `displayLabel` here, because `label` is a Dafny keyword. `validationEnabled` and
      `previewEnabled` are nullable `Boolean`s in the entity, but the service
      only ever stores a value in them, so they are plain here. */
  datatype ControlButton = ControlButton(
    id: int,
    displayLabel: string,
    icon: Option<string>,
    actionType: ActionType,
    targetEndpoint: string,
    httpMethod: HttpMethod,
    headers: Option<string>,
    payloadParameters: Option<string>,
    expectedOutputFormat: OutputFormat,
    validationEnabled: bool,
    validationSchema: Option<string>,
    previewEnabled: bool,
    createdBy: string,
    createdAt: Timestamp,
    lastExecutedAt: Option<Timestamp>,
    category: Option<string>,
    active: bool)
}
