# Control panel button service, dependency scanner and document generator

A Dafny model of three parts of the Hackathon repository.

**The control-panel button service** (`Controlbuttonservice.java`, with the
entities `Controlbutton.java` and `Auditlog.java` and the DTOs in
`Buttondto.java`). A button is a stored description of one outbound REST
call. The service creates, updates, reads and deletes buttons. It also
executes them:
- it looks the button up and rejects an unknown or inactive one;
- it builds the HTTP request from the stored headers and the caller's input
  parameters;
- it turns the response, or the transport's exception, into an execution
  result, normalising the body by the expected output format;
- it stamps `lastExecutedAt` unless the run is a preview or the call threw;
- it writes exactly one audit row in the `finally` block.

The model keeps the buttons as a map from id to `ControlButton` and the audit
rows as an append-only sequence, both fields of the class
`ControlButtonService`. These are the outside world, passed in as inputs:
- the HTTP call, as its outcome (`HttpOutcome`);
- the clocks (`Clock`);
- the authenticated principal;
- Jackson, as an `ObjectMapper` with a `write` and a `read` function that
  answer `None` where Jackson throws.

The model follows the code where other descriptions of the system differ:
- An unknown or inactive button fails before the audit row exists, so those
  calls leave no audit trace.
- A preview run is audited like any other run.
- An HTTP-error response still stamps `lastExecutedAt`.
- `TIMEOUT` is never assigned.

**The dependency scanner** (`codeScanner.py`). This part covers:
- `_parse_lftp_command`, which splits an lftp command line into words and
  picks out the filename, source directory and FTP destination;
- the post-processing of `_analyze_dotnet_code`: the line number of a match
  and its GET/POST classification, with both finding lists kept in step;
- `_create_dsl_content`, which renders the findings as DSL lines.

The class `DependencyScanner` holds `dsl_output` and the two detail lists.

**The document generator** (`talk2DSL.java`). `generateMeaningfulText`
builds a fixed-format document from a topic/keywords map.
`generateSentenceForKeyword` produces the sentence for one keyword. The
document is specified line by line (`DocumentLines`). The method that
appends to the text is proved to produce those lines, each followed by a
line break.

Modules:
- `Wrappers`: `Option` and `Result`.
- `Strings`: Java's `trim` and decimal rendering, splitting and joining on a
  character, ASCII lower-casing.
- `Jackson`: the JSON values and the mapper oracle.
- `ControlButtons`, `AuditLogs` and `ButtonDto`: the entities and DTOs.
- `ButtonService`, `CodeScanner` and `Talk2Dsl`: the three parts above.

## Model

| member | source | states |
|---|---|---|
| ControlButtons.ParseActionType | Controlbutton.java:73-75 | the only stored action type name is REST_API_CALL, and it reads back as the name it was stored under |
| ControlButtons.ParseHttpMethod | Controlbutton.java:77-79 | exactly GET, POST, PUT and DELETE are methods, each reading back to its own name |
| ControlButtons.ParseOutputFormat | Controlbutton.java:81-83 | exactly JSON, PLAIN_TEXT and XML are output formats |
| ControlButtons.EnumNamesRoundTrip | Controlbutton.java:28-47 | every enum value stored by name (`EnumType.STRING`) reads back as itself |
| AuditLogs.ParseExecutionStatus | Auditlog.java:41-52 | exactly SUCCESS, FAILURE and TIMEOUT are statuses, each reading back to its own name |
| ButtonDto.ValidCreateRequestIff | Buttondto.java:18-38 | a create request passes validation iff label and endpoint are present with a character above U+0020, and action type, method and output format are present |
| Strings.BlankIsTrimmedEmpty | Buttondto.java:19-28 | the blank test used for `@NotBlank` is exactly "nothing is left after Java's trim" |
| Strings.BlankIffNoVisibleChar | Buttondto.java:19-28 | a string is blank iff none of its characters is above U+0020 |
| Strings.IntToStringInjective | Controlbuttonservice.java:66 | the decimal text of an id (as in "Button not found with id: <id>") determines the id |
| Strings.NatToStringRoundTrip | Controlbuttonservice.java:162 | the digits of a rendered number read back as the number |
| ButtonService.CurrentUser | Controlbuttonservice.java:295-301 | the authenticated name, or "system" when the lookup fails |
| ButtonService.ConvertMapToJson | Controlbuttonservice.java:234-244 | `convertMapToJson`; its cases are stated by MapToJsonCases and its inverse by MapJsonRoundTrip |
| ButtonService.ConvertJsonToMap | Controlbuttonservice.java:247-257 | `convertJsonToMap` and `convertJsonToObjectMap` (283-293); its cases are stated by JsonToMapCases and its inverse by MapJsonRoundTrip |
| ButtonService.MapToJsonCases | Controlbuttonservice.java:234-244 | "{}" for a null or empty map and when serialisation fails, otherwise Jackson's text for the non-empty map |
| ButtonService.JsonToMapCases | Controlbuttonservice.java:247-257 | null, "" and "{}" decode to the empty map; any non-empty result is the object Jackson read from the text |
| ButtonService.MapJsonRoundTrip | Controlbuttonservice.java:234-257 | a map written by convertMapToJson is read back unchanged by convertJsonToMap, when Jackson round-trips it |
| ButtonService.BuildRequest | Controlbuttonservice.java:193-230 | the request uses the button's method and endpoint; it has a body iff the method is POST or PUT, and that body is the JSON of the input parameters with the JSON media type; headers are the decoded stored headers |
| ButtonService.NormalizeResponse | Controlbuttonservice.java:145-154 | JSON format and a non-empty body give the parsed value, or the raw text when parsing fails; any other format or an empty body gives the raw text |
| ButtonService.ExecutionResponse | Controlbuttonservice.java:137-186 | the response of an executed button, per outcome; stated by ResponseExecution, HttpErrorResponse, TransportFailure and AuditStatusFollowsOutcome, and proved to be what Attempt returns |
| ButtonService.AttemptAudit | Controlbuttonservice.java:120-186 | the audit row written in the finally block; stated by AuditRecordsAttempt, ResponseExecution, AuditStatusFollowsOutcome, HttpErrorResponse and TransportFailure, and proved to be what Attempt writes |
| ButtonService.StampedButtons | Controlbuttonservice.java:165-169 | the store after the stamp; stated by StampOnlyAfterNonPreviewResponse |
| ButtonService.AuditStatusFollowsOutcome | Controlbuttonservice.java:139-186 | the audit status is SUCCESS iff the response is successful, matches the returned success flag, is never TIMEOUT, and both carry the same duration |
| ButtonService.ResponseExecution | Controlbuttonservice.java:137-163 | when a response came back: the returned success flag follows `isSuccessful()`; the returned status code is the response's; the message is "Execution successful" or "Execution failed"; the data is the body normalised by the expected format; the audit row records the body and is dated now |
| ButtonService.HttpErrorResponse | Controlbuttonservice.java:137-163 | an HTTP-error response returns its status code and "Execution failed", still records the body, and audits "HTTP <code>: <message>", from which the code is recoverable |
| ButtonService.HttpErrorCodeReadable | Controlbuttonservice.java:162 | a consequence of the "HTTP <code>: <message>" format rather than a promise of the service: two such texts with the same status message are equal only for equal codes |
| ButtonService.TransportFailure | Controlbuttonservice.java:173-186 | a thrown call returns failure, no status code, null data and "Execution failed: <message>"; the audit row has FAILURE, the exception's message and no response data |
| ButtonService.AuditRecordsAttempt | Controlbuttonservice.java:120-134 | the audit row names the button, the caller and "<METHOD> <endpoint>"; for every method its request payload is the JSON of the input map ("{}" for null), which for POST and PUT is the text of the body sent |
| ButtonService.StampOnlyAfterNonPreviewResponse | Controlbuttonservice.java:165-169 | only a non-preview run that got a response (even an HTTP error) changes the store, and only the executed button's `lastExecutedAt`, to now; a null `isPreview` is not a preview |
| ButtonService.NewButton | Controlbuttonservice.java:42-57 | the button `createButton` builds from a valid request; stated by NewButtonDefaults and CreatedMapsReadBack |
| ButtonService.ToResponse | Controlbuttonservice.java:259-280 | `convertToResponse`; its map fields are stated by CreatedMapsReadBack and StoredMapReadsBack |
| ButtonService.ApplyUpdate | Controlbuttonservice.java:67-80 | the non-null setters of `updateButton`: each of the thirteen fields present in the request replaces the stored one, and each absent one is kept (UpdateKeepsIdentity); UpdateIsPartialAndIdempotent adds that the empty update changes nothing and that applying an update twice equals applying it once |
| ButtonService.NewButtonDefaults | Controlbuttonservice.java:40-57 | a created button takes the fresh id, the current user and now, defaults validation and preview to true, is active, never executed, has a non-blank label and endpoint, and stores header and payload texts |
| ButtonService.CreatedMapsReadBack | Controlbuttonservice.java:43-60 | a created button read back returns the headers and payload parameters it was created with (empty for null), whenever Jackson round-trips them |
| ButtonService.StoredMapReadsBack | Controlbuttonservice.java:49-50 | a possibly null map stored as JSON text decodes to the map, or to the empty map for null |
| ButtonService.UpdateKeepsIdentity | Controlbuttonservice.java:68-80 | an update never changes id, creator, creation time or `lastExecutedAt`; for each of the thirteen updatable fields, a present value replaces the stored one (the header and payload maps as their JSON text) and an absent value keeps it |
| ButtonService.UpdateIsPartialAndIdempotent | Controlbuttonservice.java:64-84 | an update with no field set changes nothing, and applying an update twice equals applying it once |
| ButtonService.Attempt | Controlbuttonservice.java:125-190 | the try/catch/finally yields exactly the specified execution response and audit row, and stamps iff a response came back on a non-preview run |
| ButtonService.ControlButtonService.constructor | Controlbuttonservice.java:30-32 | empty button and audit stores satisfying the store invariant |
| ButtonService.ControlButtonService.CreateButton | Controlbuttonservice.java:39-61 | the new button is stored under a fresh id, nothing else changes, no audit row is written, and the response is that button read back; keys stay equal to ids |
| ButtonService.ControlButtonService.UpdateButton | Controlbuttonservice.java:63-84 | an unknown id fails with "Button not found with id: <id>" and changes nothing; otherwise exactly that button becomes the updated one and is returned |
| ButtonService.ControlButtonService.DeleteButton | Controlbuttonservice.java:100-106 | succeeds iff the id is stored, removes exactly that button and keeps its audit rows |
| ButtonService.ControlButtonService.GetButtonById | Controlbuttonservice.java:93-98 | returns the stored button read back iff the id is stored, else "Button not found with id: <id>" |
| ButtonService.ControlButtonService.ExecuteButton | Controlbuttonservice.java:108-191 | an unknown or inactive button fails with its message before any request, store change or audit row; otherwise the built request is sent, the specified response is returned, the button is stamped as StampedButtons says, and exactly one audit row numbered next is appended |
| ButtonService.PingScenario | Controlbuttonservice.java:137-169 | a GET button with JSON output against a 200 {"ok":true} response sends no body, succeeds with code 200 and the parsed object, and is stamped |
| CodeScanner.SplitWhitespaceTokens | codeScanner.py:172 | `str.split()` yields non-empty pieces without whitespace |
| CodeScanner.SplitJoinRoundTrip | codeScanner.py:172 | splitting whitespace-free words joined by spaces gives the words back |
| CodeScanner.IndexOfFinds | codeScanner.py:173 | an occurrence of `put` with none before it is the index `parts.index('put')` gives |
| CodeScanner.IndexOfIsFirst | codeScanner.py:173 | `parts.index` returns the first occurrence |
| CodeScanner.FirstFtpIndexIsFirst | codeScanner.py:175 | the host index is the first token starting with "ftp://" or holding "ftp" in any case, and -1 when none does |
| CodeScanner.Dirname | codeScanner.py:177 | `os.path.dirname` on a POSIX system; stated by DirnameIsPosix, DirnameEmptyIff and DirnameOfJoin |
| CodeScanner.DirnameIsPosix | codeScanner.py:177 | the directory is the text up to the last '/', with trailing slashes stripped unless it is all slashes |
| CodeScanner.DirnameEmptyIff | codeScanner.py:177 | the directory is empty iff the path has no '/' |
| CodeScanner.DirnameOfJoin | codeScanner.py:177 | the directory of "<dir>/<name>" is dir |
| CodeScanner.ParseLftpCommand | codeScanner.py:169-180 | `_parse_lftp_command`, computing each field as lines 173-177 do (`LftpFilename`, `LftpSource`, `LftpDestination`); stated by ParseLftpCommandWords, FilenameFollowsFirstPut, DestinationIsFirstFtpToken, SourceIsDirectoryOrLocal and ParseLftpCommandOfJoined |
| CodeScanner.ParseLftpCommandWords | codeScanner.py:169-180 | filename and destination are always single whitespace-free words |
| CodeScanner.FilenameFollowsFirstPut | codeScanner.py:172-174 | the filename is the token right after the first `put` if there is one, else "unknown" |
| CodeScanner.DestinationIsFirstFtpToken | codeScanner.py:175-176 | the destination is the first FTP-looking token when its index is above 0, else "unknown" |
| CodeScanner.LeadingLftpHidesDestination | codeScanner.py:175-176 | a command starting with "lftp" always has destination "unknown" |
| CodeScanner.SourceIsDirectoryOrLocal | codeScanner.py:177 | the source is the filename's directory, or "local" when it is empty, the "unknown" filename included |
| CodeScanner.ParseLftpCommandOfJoined | codeScanner.py:169-178 | a command made of words joined by spaces parses as its word list |
| CodeScanner.LftpLedTokens | codeScanner.py:169-178 | `lftp ftp://host put dir/a.txt` gives filename dir/a.txt, source dir, destination unknown |
| CodeScanner.OpenLedTokens | codeScanner.py:169-178 | `open ftp://host put a.txt` gives filename a.txt, source local, destination ftp://host |
| CodeScanner.LineNumber | codeScanner.py:138 | the line of a match is between 1 and its start plus 1 |
| CodeScanner.LineNumberIsLineCount | codeScanner.py:138 | the line of a match is the number of lines the text before it spans |
| CodeScanner.LineNumberMonotone | codeScanner.py:156 | a later match is as many lines further down as there are line breaks between the starts |
| CodeScanner.DotnetMethod | codeScanner.py:158 | the method is GET iff the match text contains "GetAsync", otherwise POST |
| CodeScanner.GetAsyncMatchIsGet | codeScanner.py:154-158 | a GetAsync match is classified GET |
| CodeScanner.PostAsyncMatchMethod | codeScanner.py:154-158 | a PostAsync match is classified GET iff its URL contains "GetAsync" |
| CodeScanner.RenderItem | codeScanner.py:194-201 | the f-string of one finding; stated by RenderItemFields and RenderItemEndsWithParen |
| CodeScanner.RenderItemEndsWithParen | codeScanner.py:194-201 | every DSL line ends with the ')' of its language tag |
| CodeScanner.RenderItemFields | codeScanner.py:194-201 | the DSL lines start "LFTP_TRANSFER <filename> from <source> to <destination> at <file>:" and "API_CALL <METHOD> <url> at <file>:" |
| CodeScanner.ItemLinesAt | codeScanner.py:191-201 | line k after the header renders finding k |
| CodeScanner.DslContentShape | codeScanner.py:188-202 | the DSL text starts with the header line and has no trailing line break |
| CodeScanner.DslContentLines | codeScanner.py:188-202 | for single-line fields, the DSL text splits at line breaks into the header and one line per finding |
| CodeScanner.DetailCountsAgree | codeScanner.py:144-167 | the two detail lists together have exactly one entry per finding |
| CodeScanner.DotnetLftpItemsShape | codeScanner.py:137-151 | the .NET lftp pass yields only csharp transfers, exactly as many as there are matches holding a command (`CommandCount`), so at most one per match |
| CodeScanner.DotnetApiItemsShape | codeScanner.py:155-167 | the .NET API pass yields one finding per match, in order, with the match's URL, method and line |
| CodeScanner.DependencyScanner.constructor | codeScanner.py:10-17 | empty findings and detail lists |
| CodeScanner.DependencyScanner.RecordLftpTransfer | codeScanner.py:143-151 | appends the parsed transfer to `dsl_output` and the same details to the transfer list |
| CodeScanner.DependencyScanner.RecordApiCall | codeScanner.py:159-167 | appends the API call to `dsl_output` and its URL and method to the call list |
| CodeScanner.DependencyScanner.AnalyzeDotnetCode | codeScanner.py:133-167 | appends the lftp findings, then the API findings, keeping the detail lists in step |
| CodeScanner.DependencyScanner.RecordDotnetLftpMatches | codeScanner.py:137-151 | the lftp loop appends exactly the .NET lftp findings |
| CodeScanner.DependencyScanner.RecordDotnetLftpMatch | codeScanner.py:138-151 | one iteration records a match holding a command on its line and skips one without |
| CodeScanner.DependencyScanner.RecordDotnetApiMatches | codeScanner.py:155-167 | the API loop appends exactly the .NET API findings |
| CodeScanner.DependencyScanner.CreateDslContent | codeScanner.py:188-202 | returns the header and the rendered findings in order, joined by line breaks |
| Talk2Dsl.SentenceForKeyword | talk2DSL.java:45-47 | `generateSentenceForKeyword`; stated by SentenceLayout and SentenceDeterminesArguments |
| Talk2Dsl.SentenceLayout | talk2DSL.java:45-47 | the sentence is the fixed template with the keyword at offset 15 and the topic before the 31-character ending |
| Talk2Dsl.SentenceDeterminesArguments | talk2DSL.java:45-47 | for a fixed topic the sentence determines the keyword, and for a fixed keyword the topic |
| Talk2Dsl.JavaSplitComma | talk2DSL.java:30 | `split(",")`; stated by JavaSplitCommaFields and DropTrailingEmptyDropsEmpty |
| Talk2Dsl.JavaSplitCommaFields | talk2DSL.java:30 | `split(",")`: pieces hold no comma, joined they are a prefix of the input followed only by commas, no comma gives the whole input, and trailing empty pieces are dropped |
| Talk2Dsl.DropTrailingEmptyDropsEmpty | talk2DSL.java:30 | only empty pieces are dropped from the end |
| Strings.JavaTrim | talk2DSL.java:33 | the trimmed keyword is empty or starts and ends with a character above U+0020 |
| Strings.JavaTrimIsSlice | talk2DSL.java:33 | `trim` returns a contiguous piece of the keyword, and every character cut off before or after it is at most U+0020 |
| Talk2Dsl.GenerateMeaningfulText | talk2DSL.java:21-42 | the appended text is the document's lines, each followed by a line break |
| Talk2Dsl.AppendBullets | talk2DSL.java:32-36 | the keyword loop appends one bullet line per piece, trimmed, in order |
| Talk2Dsl.DocumentOpening | talk2DSL.java:26-27 | the text starts "Document on <topic>\n\nThis document explores the concept of <topic>.\n" |
| Talk2Dsl.DocumentDefaults | talk2DSL.java:23-38 | without "topic" the title names "Unknown Topic"; when "keywords" is absent or present but empty, the last line is the no-aspects line |
| Talk2Dsl.DocumentBullets | talk2DSL.java:29-36 | with keywords, line 3 is "Key aspects include:" and line 4+k is "- <piece k trimmed>: <sentence>" |
| Talk2Dsl.SingleKeyword | talk2DSL.java:29-36 | a keyword list without a comma gives the heading and one bullet for the whole list, trimmed |
| Talk2Dsl.DocumentLineCount | talk2DSL.java:26-39 | the document has 4 lines plus one per piece, or 4 without keywords |
| Talk2Dsl.DocumentEndsWithNewline | talk2DSL.java:26-41 | the text always ends with a line break |
| Talk2Dsl.DocumentSplitsIntoLines | talk2DSL.java:26-41 | when topic and keywords hold no line break, splitting the text at line breaks gives the document's lines and a final empty piece |

## Left out

- The OkHttp client, its timeouts and the network call are not modelled. The call is its outcome, a parameter.
- Exceptions thrown by URL or header building, by reading the body, or by `buttonRepository.save` inside the try block are not modelled. The model's catch branch covers only an exception from the call itself.
- OkHttp's `delete()` sending an empty body is not modelled: DELETE is modelled with no body.
- Header values are not checked to be strings before `addHeader`.
- Jackson reading the text "null" as a null map is not modelled.
- Numbers in JSON values are integers only.
- The current user is `None` when the security-context lookup throws. A null `getName()` is not modelled.
- `updatedAt` (`@UpdateTimestamp`) is not modelled. The same `now` stands for `createdAt`, `lastExecutedAt` and `executedAt`.
- `getAllButtons`, the repositories' queries, `Controlpanelcontroller.java` and `model.java` are not part of this model.
- `@Transactional` rollback is not modelled.
- Ids are unbounded integers, not 64-bit `Long`s.
- The `log.error` calls in `executeButton`'s catch block, the two JSON converters and `convertJsonToObjectMap` write only to the application log and are not modelled.
- ButtonService.ControlButtonService.UpdateButton: the thirteen conditional setters are modelled as one functional update, `ApplyUpdate`, rather than as thirteen statements.
- Git listing, file reading and writing, the Python and Java tree walks, and the regular expressions of `codeScanner.py` are not modelled. The .NET matches are inputs: start, matched text, URL, and the quoted lftp command if any. `files_scanned`, `errors`, `generate_dsl` and `main` are left out.
- The Java pass's `.strip('"')` of literal URLs is not modelled.
- CodeScanner.Dirname assumes a POSIX `os.path` (`posixpath.dirname`). On Windows, `ntpath.dirname` with backslashes and drive letters is not modelled.
- Finding types other than lftp transfers and API calls cannot occur in the model, so the skip branch of `_create_dsl_content` is not represented.
- The exception branch of `_parse_lftp_command` is not modelled. For a string argument nothing in the try block raises, so its all-"unknown" result is never produced.
- `loadDSLFile` (`Properties.load`), `writeToFile`, `generateDocument` and `main` in `talk2DSL.java` are file I/O and are left out. The model takes the loaded map as input.
- Talk2Dsl.JavaSplitComma: Java's `split` is modelled for the one-character pattern "," only, not for general regular expressions.
