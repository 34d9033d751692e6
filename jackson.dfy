/** The boundary to the Jackson ObjectMapper the service uses. Jackson itself
    is not part of this model: it is represented by two total functions, one
    per call the service makes, each answering `None` where Jackson throws a
    JsonProcessingException. */
module Jackson {
  import opened Wrappers

  /** A JSON value as Jackson reads it into plain Java objects (`Map`, `List`,
      `String`, `Boolean`, numbers, `null`). Numbers are integers here. */
  datatype JsonValue =
    | JNull
    | JBool(b: bool)
    | JNumber(n: int)
    | JString(s: string)
    | JArray(items: seq<JsonValue>)
    | JObject(fields: map<string, JsonValue>)

  /** `writeValueAsString` and `readValue`. */
  datatype ObjectMapper = ObjectMapper(
    write: JsonValue -> Option<string>,
    read: string -> Option<JsonValue>)

  /** The mapper serialises the non-empty object `fields` to a text that is
      neither empty nor "{}" and reads that text back as the same object, as
      Jackson does for a map of plain values. */
  predicate RoundTripsObject(mapper: ObjectMapper, fields: map<string, JsonValue>) {
    var text := mapper.write(JObject(fields));
    && text.Some?
    && text.value != ""
    && text.value != "{}"
    && mapper.read(text.value) == Some(JObject(fields))
  }
}
