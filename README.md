# ClickUp CLI core in Dafny

This project models the decision logic of a command-line client for the ClickUp task API.

- `Api.MakeApiRequest` is the single HTTPS request executor. It covers:
  - the credential check;
  - the request options and headers, including `Content-Length`;
  - how a response, a socket error or a timeout settles the call.
- `Utils.WaitForCustomId` polls a newly created task until its `custom_id` shows up, with a bounded number of attempts and sleeps between them.
- `TaskCommands` holds the pure cores of the `task` command handlers:
  - the `ls` path;
  - the `create` payload;
  - the `update` switch;
  - the task-id test and the positional update of the `task` router;
  - the continue-on-error bulk delete `rm`.
- `Types` holds the task records and the two error classes `ClickUpApiError` and `ClickUpTimeoutError`.

Supporting modules state what the client takes from its runtime:
- `JsText`: the ECMAScript string operations it uses (`trim`, `toLowerCase`, one-character `split` and `join`, `parseInt` without a radix, and integer `toString`).
- `Utf8`: UTF-8 per RFC 3629 section 3, for `Buffer.byteLength`.

Several parts of the outside world are inputs to the model:
- The environment key is an `Option<string>`.
- The HTTPS transport is a `Transport` value: a response as status and text chunks, a socket error, or the socket timeout.
- `JSON.stringify` and `JSON.parse` are function parameters.
- The outcome of each GET or DELETE is an oracle `respond: nat -> Outcome<T>`: `respond(k)` is how the (k+1)-th request settles.
- The result of reading a file is a `Result<string, string>`.
- Sleeps are recorded as `Sleep(ms)` events in a trace, together with the GETs.

The mutable parts keep their imperative form:
- the header map that gains `Content-Length`;
- the `responseData += chunk` loop;
- the poller's `while` loop and its attempt counter;
- the payload objects built by assignment and `delete`;
- the delete loop that pushes results.

Each of these is a method proved against a specification:
- the header map against the predicate `WellFormedRequest`;
- the response loop against the function `Concat`;
- the poller against the function `PollSpec`;
- the payload objects against `Entry` over `Defined` values;
- the delete loop directly against the outcome oracle `respond`, with `Succeeded` and `FailedCount` applied to its results in `DeleteTasks`.

The lemmas about those functions carry the properties the source promises.

## Model

| member | source | states |
|---|---|---|
| Api.MakeApiRequest | src/api/index.ts:5-72 | Without a key (absent or empty), nothing is sent and the call fails with `CLICKUP_API_KEY environment variable not found`. With a key, a request is sent iff `https.request` accepts the path, method and key. When it refuses them, nothing is sent and the call rejects with the TypeError it throws. A request that is sent is the only one, it is well formed, and its body is the JSON text of truthy data. The call then settles as the transport decides: a timeout gives `ClickUpTimeoutError` with exactly the configured timeout (default 30000), and a socket error is passed on unchanged. |
| Api.RequestRefusal | src/api/index.ts:21-37 | `https.request` refuses the options iff at least one holds: the path has a character outside U+0021..U+00FF, a non-empty method is not an HTTP token, or the key has a character not allowed in a header value. Node checks them in that order, so the first failing check decides the error: `ERR_UNESCAPED_CHARACTERS`, `ERR_INVALID_HTTP_TOKEN` or `ERR_INVALID_CHAR` on the Authorization value, each a TypeError with Node's message. |
| Api.BuildRequest | src/api/index.ts:19-35 | The request targets `api.clickup.com:443`, with the caller's method, path and timeout unchanged. `Authorization` is the key and `Content-Type` is `application/json`. `Content-Length` is present iff there is a body, and then equals the body's UTF-8 byte count. No other header is set. |
| Api.ReadResponse | src/api/index.ts:38-42 | The response text is the chunks concatenated in arrival order, and its length is the sum of the chunk lengths. |
| Api.ConcatLength | src/api/index.ts:40-42 | The accumulated response is as long as all chunks together. |
| Api.Classify | src/api/index.ts:44-55 | The body is parsed before the status is looked at. The call resolves iff the body parses and the status is 2xx, and then to exactly the parsed value. A body that does not parse, whatever the status, is a plain `Error` with the message `Parse error: <reason>. Raw: <raw>`, where reason is the parser's own. A parsable body with another status, or with no status, is `new ClickUpApiError(status or 0, raw)`. That error carries the raw body and the status (0 when missing), and its message is `API Error (<status>): <raw>`. |
| Utf8.ByteLength | src/api/index.ts:34 | `Buffer.byteLength` is the length of the UTF-8 encoding: between 1 and 4 bytes per character, and exactly 1 per ASCII character. |
| Utf8.DecodeEncode | src/api/index.ts:34 | The counted bytes are a faithful UTF-8 form of the body: decoding them gives the text back. |
| Utf8.DecodeEncodeChar | src/api/index.ts:34 | Decoding the encoding of one character gives that character back, with its byte length, whatever bytes follow. |
| Types.PlainError | src/api/index.ts:15 | `new Error(message)` has name `Error`, the given message, and no class-specific fields. |
| Types.NewClickUpApiError | src/types/index.ts:110-119 | `statusCode` and `response` are stored verbatim and the name is `ClickUpApiError`. A non-empty explicit message is kept unchanged. With no message, or an empty one, the message is exactly `API Error (<statusCode>): <response>`, and parsing it gives the status and the response back. |
| Types.ApiErrorTextRoundTrip | src/types/index.ts:116 | The default API error text determines its status code and response: parsing it recovers both exactly. |
| Types.NewClickUpTimeoutError | src/types/index.ts:121-126 | The timeout is stored and the name is `ClickUpTimeoutError`. The message is exactly `Request timeout after <timeout>ms`, and `parseInt` of the text after the prefix gives the timeout back. |
| Types.TimeoutTextReadBack | src/types/index.ts:123 | `Request timeout after <timeout>ms` carries the timeout so that `parseInt` recovers it. |
| Utils.WaitForCustomId | src/utils/index.ts:5-42 | The loop's result and trace of GETs and sleeps are exactly `PollSpec`. The result is the first attempt that fetched a truthy `custom_id`, or an error on the last allowed attempt. Otherwise, after all attempts, it is one extra GET whose outcome is returned unchecked. |
| Utils.FirstStop | src/utils/index.ts:8-36 | The first attempt that leaves the loop early lies inside the attempt budget, and no attempt before it would have left. With no such attempt, none within the budget leaves. |
| Utils.FirstStopIsLeast | src/utils/index.ts:8-36 | An attempt that leaves the loop, with none leaving before it, is the one the loop stops at. |
| UtilsProperties.PollBounds | src/utils/index.ts:6-41 | Every run makes at least 1 and at most maxAttempts + 1 GETs, and at most maxAttempts - 1 sleeps. Each sleep stands between two GETs, and the trace ends on a GET. |
| UtilsProperties.ReturnsFirstCustomId | src/utils/index.ts:12-17 | The first task fetched with a truthy `custom_id` is returned at once, after i + 1 GETs and i sleeps. No further GET or sleep follows. |
| UtilsProperties.RethrowsLastAttemptError | src/utils/index.ts:24-30 | An error on the last allowed attempt is rethrown unchanged after exactly maxAttempts GETs. No final GET is made on this path. |
| UtilsProperties.AbsorbsEarlierError | src/utils/index.ts:32-35 | An error on an earlier attempt is swallowed. That attempt's GET is followed by exactly one sleep and then the next attempt's GET. |
| UtilsProperties.ExhaustionMakesFinalGet | src/utils/index.ts:39-41 | When no attempt finds the id and the last one does not fail, one more GET follows straight away and its outcome is returned: maxAttempts + 1 GETs in all. With maxAttempts <= 0 this is a single GET. |
| UtilsProperties.DefaultBudget | src/utils/index.ts:5 | With the defaults (4 attempts, 5000 ms) and an id that never appears, the poller makes 5 GETs and 3 sleeps. |
| UtilsProperties.RoundsShape | src/utils/index.ts:19-23 | Attempts alternate GET and sleep, starting and ending with a GET. |
| UtilsProperties.RoundsCounts | src/utils/index.ts:8-23 | n attempts without an early exit make n GETs and n - 1 sleeps. |
| UtilsProperties.FinalGetWellShaped | src/utils/index.ts:39-41 | The attempts followed by the final GET make a well-shaped trace with n + 1 GETs. |
| JsText.Trim | src/commands/task.ts:135 | `trim` removes exactly the blank ends. The input is its leading blanks, then the result, then blanks, and the result neither starts nor ends with white space. The result is empty exactly when the input is all ECMAScript white space, and an already trimmed string is returned unchanged. |
| JsText.LowerMatchesKeyword | src/commands/task.ts:115-127 | `toLowerCase(s)` equals a lower-case keyword iff s has the keyword's length and each character is the keyword's own, its ASCII capital, or the Kelvin sign where the keyword has `k`. So the switches match names case-insensitively. |
| JsText.Split | src/commands/task.ts:136 | Splitting on one character gives one more piece than there are separators. No piece contains the separator, and joining the pieces gives the input back. |
| JsText.SplitTrim | src/commands/task.ts:136 | `split(',').map(trim)` gives (number of commas + 1) pieces, in order, each piece trimmed. |
| JsText.SplitJoin | src/commands/task.ts:417 | Splitting a join of separator-free pieces gives the pieces back. |
| JsText.ParseIntRoundTrip | src/commands/task.ts:130 | `parseInt` of an integer's decimal numeral gives that integer back. |
| JsText.ParseIntOfNumeral | src/types/index.ts:123 | `parseInt` stops at the first non-digit after a numeral and returns the numeral's value. |
| JsText.NatToStringValue | src/types/index.ts:116 | The decimal digits written for n have the value n. |
| TaskCommands.ListTasksPath | src/commands/task.ts:18-20 | The path is `/api/v2/task` iff no list id (or an empty one) is given. Otherwise it is `/api/v2/list/<listId>/task`, from which the list id can be read back. |
| TaskCommands.CreatePriority | src/commands/task.ts:114-132 | urgent, high, normal and low give 4, 3, 2 and 1 (compared lower-cased). Any other text gives `parseInt`'s result, or 2 when that is NaN or 0. The result is never 0, and a value outside 1..4 is what `parseInt` read. |
| TaskCommands.CreatePriorityOfNumeral | src/commands/task.ts:128-130 | A non-zero integer written as a numeral reaches the create payload unchanged. |
| TaskCommands.UpdatePriority | src/commands/task.ts:289-307 | urgent, high, normal and low give `"4"`, `"3"`, `"2"` and `"1"` (compared lower-cased). Any other text passes through verbatim. |
| TaskCommands.PriorityNameAnyCase | src/commands/task.ts:115-127 | Text spelling a priority name with any letters capitalised gets that name's level on create (4/3/2/1) and its numeral on update (`"4"`..`"1"`). |
| TaskCommands.MixedCasePriorities | src/commands/task.ts:115-127 | `URGENT` gives 4 and `"4"`, and `Low` gives 1 and `"1"`. |
| TaskCommands.PriorityNamesAgree | src/commands/task.ts:291-303 | For a priority name, the update string is the numeral of the create number, and `parseInt` reads it back to that number. |
| TaskCommands.PriorityNumeralsAgree | src/commands/task.ts:304-306 | A non-zero numeral is sent unchanged by update, and `parseInt` reads it as the number create sends. |
| TaskCommands.NumeralIsNoPriorityName | src/commands/task.ts:115 | A numeral never lower-cases to a priority name. |
| TaskCommands.DropNullish | src/commands/task.ts:152-157 | A key stays iff its value is neither undefined nor null, and kept keys keep their values. |
| TaskCommands.DroppedEntry | src/commands/task.ts:153-157 | After the delete pass, a key is present iff it was set to a value that is neither undefined nor null. |
| TaskCommands.PriorityEntry | src/commands/task.ts:113-132 | The priority key is present iff the option is given and non-empty, and then holds `CreatePriority` of the option, a non-zero number. |
| TaskCommands.ListEntry | src/commands/task.ts:134-145 | Assignees and tags are present iff the option is not blank, and then hold the option split at commas with each piece trimmed: (commas + 1) pieces. |
| TaskCommands.StatusEntry | src/commands/task.ts:139-141 | Status is present iff the option is not blank after trimming, and then holds the untrimmed text. |
| TaskCommands.TextEntry | src/commands/task.ts:147-150 | `due_date` is present iff given and non-empty, and is then sent as it is. |
| TaskCommands.CreateDescription | src/commands/task.ts:82-111 | A markdown file beats `--markdown`, which beats `--description`. An unreadable markdown file stops the handler with `Error reading markdown file "<path>": <reason>`, and nothing else does. |
| TaskCommands.BuildCreatePayload | src/commands/task.ts:78-157 | Fails only on an unreadable markdown file. Otherwise `name` is always present and every other key follows its entry rule, with no undefined or null value left. |
| TaskCommands.AssemblePayload | src/commands/task.ts:78-80 | The object built field by field and then cleaned holds exactly the defined entries, `name` always included. |
| TaskCommands.BuildUpdatePayload | src/commands/task.ts:274-326 | The object built field by field is `UpdatePayload` of the lower-cased name. It succeeds iff the name is accepted, and then sets exactly one field, the named one (`markdown_description` writes `description`), to the value's own text, its trimmed comma pieces, or the mapped priority. An unknown name gives `Unknown property: <name>` with the list of valid properties. |
| TaskCommands.UpdatePayload | src/commands/task.ts:276-326 | The update table gives a body iff the lower-cased name is accepted, and the body carries exactly one key. |
| TaskCommands.PositionalMatchesUpdate | src/commands/task.ts:424-465 | The positional form builds the same body as the update subcommand for every name except `markdown_description`. It rejects that name, which the subcommand treats as `description`. |
| TaskCommands.UpdateTaskCommand | src/commands/task.ts:255-328 | An unreadable `--file` stops the handler with `Error reading file "<path>": <reason>`. Otherwise the handler issues a PUT to `/api/v2/task/<id>` iff the property is accepted. Its body is `UpdatePayload` of the lower-cased name and the file's contents when a file is named, else the argument. An unknown property gives `Unknown property: <name>` with the full property list. |
| TaskCommands.TaskIdSimplified | src/commands/task.ts:408-413 | A token is a task id iff it starts with `ac_` or is 6 or more ASCII letters and digits. The hexadecimal and all-digit alternatives are subsumed. |
| TaskCommands.RouteTask | src/commands/task.ts:395-417 | A missing or empty first argument asks for a subcommand, and a non-id token is refused. An id with 2 or more further arguments, the first non-empty, is a positional update of that property. Its value is the rest of the arguments joined with single spaces. Any other id shows the task. |
| TaskCommands.RouteJoinsValue | src/commands/task.ts:415-417 | `task abc123 name "My task" v2` is a positional update of `name` to `My task v2`. |
| TaskCommands.PositionalValueWords | src/commands/task.ts:417 | The value is the remaining arguments joined with single spaces: splitting it at spaces gives those arguments back when none holds a space. |
| TaskCommands.PositionalUpdate | src/commands/task.ts:415-465 | Issues a PUT to the task iff the property is accepted, where `markdown_description` is not. Its body is `UpdatePayload` of the lower-cased name and the joined value, with one field set. An unknown property gives `Unknown property: <name>` with the shorter property list. |
| TaskCommands.TallyAddsUp | src/commands/task.ts:371-372 | Successes plus failures equal the number of results, and there are no failures iff every deletion succeeded. |
| TaskCommands.DeleteEach | src/commands/task.ts:358-369 | One `makeApiRequest('DELETE', /api/v2/task/<id>)` call per id, in order. A failure, including Node's refusal of the path, is recorded with its message, and the loop goes on. |
| TaskCommands.TaskPathRefused | src/commands/task.ts:362 | An id with a character outside U+0021..U+00FF, such as a space, gives a task path that `https.request` refuses with `ERR_UNESCAPED_CHARACTERS`, whatever the method and key. So nothing is sent for it. |
| TaskCommands.TaskPathAccepted | src/commands/task.ts:362 | For GET, PUT and DELETE, an id of characters in U+0021..U+00FF with a key of valid header characters gives a request that `https.request` accepts. |
| TaskCommands.SpacedIdRefused | src/commands/task.ts:354-362 | `task rm "abc def"` sends nothing: the path `/api/v2/task/abc def` is refused. |
| TaskCommands.DeleteTasks | src/commands/task.ts:354-380 | Ids are the trimmed comma pieces, empty ones included: (commas + 1) DELETE calls, each to its id's task path. Successes plus failures equal that count, and the exit status is 1 iff some deletion failed. |

## Left out

- The HTTPS transport itself is an input: TLS, sockets, `req.destroy()`, and the runtime's promise rule that a second `resolve`/`reject` is ignored. The model settles each call exactly once from one `Transport` value.
- Api.ReadResponse: chunks are modelled as already-decoded text. Node turns each `Buffer` chunk into a string separately, so a multi-byte character split across two chunks would become U+FFFD replacement characters. The model does not capture this.
- JSON grammar: `JSON.stringify` and `JSON.parse` are parameters. Values are opaque apart from the fields the handlers read, and a create payload is a map from its seven keys to JSON values.
- JsText.ToLowerCase maps only ASCII letters and the Kelvin sign (the only non-ASCII character that lower-cases into ASCII). Other Unicode case mappings cannot change whether a string equals an ASCII property or priority name, so they are left out.
- JsText.ParseInt and JsText.IntToString work on unbounded integers. Numbers beyond 2^53, exponent notation in `toString`, and a fractional or infinite `timeout` are not modelled.
- Console output, `--json` output, `process.exit`, and locale-dependent date printing are left out. A handler that exits with status 1 before calling the API returns a `Failure`, and `rm` returns its exit status.
- File reading (`fs.readFileSync`) is an input `Result<string, string>`, whose error text is the thrown error's message.
- `sleep` and wall-clock time appear only as `Sleep(ms)` events in the poller's trace.
- Command-line option parsing and command wiring are not part of this model. They are taken as given: options arrive as a record, and an absent option is `None`.
- The composition in `task create` (POST the payload, then poll for the custom id) and the GET of `task <id>` are not modelled beyond their parts. Each is one `MakeApiRequest` followed by `WaitForCustomId` or by output formatting.
- The "Markdown content is required" branch of `task create` (src/commands/task.ts:99-106) cannot be reached: it needs `--markdown` or `--markdown-file` to be truthy while both are falsy. The model has no such branch.
- The router's help text says a task id has "8+" characters, but the code tests for 6 or more. The model follows the code.
- The task record declares no `custom_id`, yet the poller reads one. `Types.ClickUpTask` includes it as an optional field.
- Utils.WaitForCustomId: a GET that resolves to JSON `null` is not modelled. Reading `custom_id` of `null` throws inside the loop's `try`, so the source treats such an attempt like a failed one (absorbed, or rethrown on the last attempt) with an engine-specific TypeError. The oracle's resolved value is always a task record, so this path is not captured.
- Api.MakeApiRequest: Node also refuses a negative `timeout`, with a RangeError. No caller passes a timeout, so the default 30000 always applies, and the model does not refuse negative values.
- Api.MakeApiRequest: Node upper-cases the method and uses GET for an empty one. Every caller passes one of `GET`, `POST`, `PUT` and `DELETE`, so the model sends the method unchanged.
- The poller sleeps only between attempts, at most maxAttempts - 1 times (3 with the defaults), not once per attempt. The model follows the code.
