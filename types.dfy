/** The records and error classes of src/types/index.ts. */
module Types {
  import opened Wrappers
  import opened JsText

  /** JavaScript truthiness of an optional string: present and not empty. */
  predicate Present(o: Option<string>) {
    o.Some? && o.value != ""
  }

  datatype TaskStatus = TaskStatus(status: string, color: string, orderindex: int)
  datatype TaskPriority = TaskPriority(priority: string, color: string, orderindex: string)
  datatype Assignee = Assignee(id: int, username: Option<string>, email: Option<string>)
  datatype ListRef = ListRef(id: string, name: string)

  /** A task as the API returns it. `custom_id` is read by the client although the
      interface does not declare it. */
  datatype ClickUpTask = ClickUpTask(
    id: string,
    name: string,
    custom_id: Option<string>,
    description: Option<string>,
    status: TaskStatus,
    priority: Option<TaskPriority>,
    assignees: Option<seq<Assignee>>,
    due_date: Option<string>,
    date_created: string,
    date_updated: string,
    tags: Option<seq<string>>,
    url: string,
    list: Option<ListRef>)

  /** The body of a task update; a field that is None is left out of the JSON. */
  datatype TaskUpdateOptions = TaskUpdateOptions(
    name: Option<string>,
    description: Option<string>,
    status: Option<string>,
    priority: Option<string>,
    assignees: Option<seq<string>>,
    due_date: Option<string>,
    tags: Option<seq<string>>)

  const NoUpdates := TaskUpdateOptions(None, None, None, None, None, None, None)

  /** How many keys the JSON body of an update carries (JSON.stringify leaves out the
      undefined ones). */
  function KeyCount(u: TaskUpdateOptions): nat {
    (if u.name.Some? then 1 else 0) + (if u.description.Some? then 1 else 0)
    + (if u.status.Some? then 1 else 0) + (if u.priority.Some? then 1 else 0)
    + (if u.assignees.Some? then 1 else 0) + (if u.due_date.Some? then 1 else 0)
    + (if u.tags.Some? then 1 else 0)
  }

  /** What distinguishes the error classes: a plain Error, a ClickUpApiError with its
      status code and raw response, a ClickUpTimeoutError with its timeout, or an error
      Node.js raises with its `code` property. */
  datatype ErrorKind =
    | Generic
    | ApiFailure(statusCode: int, response: string)
    | Timeout(timeout: int)
    | NodeCode(code: string)

  /** A JavaScript Error object: its `name`, its `message` and its class-specific fields. */
  datatype JsError = JsError(name: string, message: string, kind: ErrorKind)

  /** `new Error(message)`. */
  function PlainError(message: string): (e: JsError)
    ensures e.name == "Error" && e.message == message && e.kind == Generic
  {
    JsError("Error", message, Generic)
  }

  const ApiErrorPrefix := "API Error ("

  /** The message a ClickUpApiError gets when none is given. */
  function ApiErrorText(statusCode: int, response: string): string {
    ApiErrorPrefix + IntToString(statusCode) + "): " + response
  }

  /** `new ClickUpApiError(statusCode, response, message)`: both fields kept verbatim;
      a message that is absent or empty falls back to the default text. */
  function NewClickUpApiError(statusCode: int, response: string, message: Option<string> := None): (e: JsError)
    ensures e.name == "ClickUpApiError"
    ensures e.kind == ApiFailure(statusCode, response)
    ensures Present(message) ==> e.message == message.value
    ensures !Present(message) ==> e.message == ApiErrorText(statusCode, response)
    ensures !Present(message) ==> ParseApiErrorText(e.message) == Some((statusCode, response))
  {
    var text := if Present(message) then message.value else ApiErrorText(statusCode, response);
    ApiErrorTextRoundTrip(statusCode, response);
    JsError("ClickUpApiError", text, ApiFailure(statusCode, response))
  }

  /** Reads the status code and the response back out of a default ClickUpApiError
      message: the numeral runs up to the first ')' and the response is all that
      follows "): ". */
  function ParseApiErrorText(text: string): Option<(int, string)> {
    var p := |ApiErrorPrefix|;
    if |text| < p || text[..p] != ApiErrorPrefix then None
    else ParseApiErrorTail(text[p..])
  }

  /** The part of the message after the prefix. */
  function ParseApiErrorTail(tail: string): Option<(int, string)> {
    if ')' !in tail then None
    else
      var close := IndexOf(tail, ')');
      var after := tail[close + 1..];
      if |after| < 2 || after[..2] != ": " then None
      else match ParseInt(tail[..close])
        case None => None
        case Some(code) => Some((code, after[2..]))
  }

  lemma ApiErrorTextRoundTrip(statusCode: int, response: string)
    ensures ParseApiErrorText(ApiErrorText(statusCode, response)) == Some((statusCode, response))
  {
    var numeral := IntToString(statusCode);
    var text := ApiErrorText(statusCode, response);
    var p := |ApiErrorPrefix|;
    var tail := numeral + [')'] + (": " + response);
    assert text == ApiErrorPrefix + tail;
    assert text[..p] == ApiErrorPrefix && text[p..] == tail;
    ApiErrorTailRoundTrip(statusCode, response);
  }

  lemma ApiErrorTailRoundTrip(statusCode: int, response: string)
    ensures ParseApiErrorTail(IntToString(statusCode) + [')'] + (": " + response)) == Some((statusCode, response))
  {
    var numeral := IntToString(statusCode);
    var tail := numeral + [')'] + (": " + response);
    assert ')' !in numeral by {
      assert forall i :: 0 <= i < |numeral| ==> numeral[i] == '-' || '0' <= numeral[i] <= '9';
    }
    IndexOfAfter(numeral, ')', ": " + response);
    assert tail[..|numeral|] == numeral;
    assert tail[|numeral| + 1..] == ": " + response;
    ParseIntRoundTrip(statusCode);
  }

  const TimeoutPrefix := "Request timeout after "

  function TimeoutText(timeout: int): string {
    TimeoutPrefix + IntToString(timeout) + "ms"
  }

  /** `new ClickUpTimeoutError(timeout)`: the timeout is kept, and the message names it
      in milliseconds so that parseInt reads it back from the text after the prefix. */
  function NewClickUpTimeoutError(timeout: int): (e: JsError)
    ensures e.name == "ClickUpTimeoutError"
    ensures e.kind == Timeout(timeout)
    ensures e.message == TimeoutText(timeout)
    ensures |e.message| > |TimeoutPrefix| && e.message[..|TimeoutPrefix|] == TimeoutPrefix
    ensures e.message[|e.message| - 2..] == "ms"
    ensures ParseInt(e.message[|TimeoutPrefix|..]) == Some(timeout)
  {
    TimeoutTextReadBack(timeout);
    JsError("ClickUpTimeoutError", TimeoutText(timeout), Timeout(timeout))
  }

  lemma TimeoutTextReadBack(timeout: int)
    ensures var text := TimeoutText(timeout);
      && |text| > |TimeoutPrefix| && text[..|TimeoutPrefix|] == TimeoutPrefix
      && text[|text| - 2..] == "ms"
      && ParseInt(text[|TimeoutPrefix|..]) == Some(timeout)
  {
    var numeral := IntToString(timeout);
    var text := TimeoutText(timeout);
    assert text == TimeoutPrefix + (numeral + "ms");
    assert text[|TimeoutPrefix|..] == numeral + "ms";
    ParseIntOfNumeral(timeout, "ms");
  }
}
