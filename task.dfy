/** The decision logic inside the task command handlers of src/commands/task.ts: the
    `ls` path, the create and update payloads, the task-id test and argument split of the
    positional update, and the continue-on-error bulk delete. Console output and
    process.exit are left out; a handler that exits with status 1 gives a Failure. */
module TaskCommands {
  import opened Wrappers
  import opened JsText
  import opened Types
  import opened Api
  import opened Utils

  /** Why a handler stops with exit status 1 before calling the API. */
  datatype Failure =
    | FileReadFailure(message: string)
    | UnknownProperty(message: string, validProperties: string)

  // ----- ls -----

  const ListPathPrefix := "/api/v2/list/"
  const AllTasksPath := "/api/v2/task"

  /** The path `task ls [listId]` reads: the list's tasks when a list id is given (and not
      empty), every accessible task otherwise. The list id can be read back from the path. */
  function ListTasksPath(listId: Option<string>): (path: string)
    ensures path == AllTasksPath <==> !Present(listId)
    ensures Present(listId) ==>
      |path| == |ListPathPrefix| + |listId.value| + 5
      && path[..|ListPathPrefix|] == ListPathPrefix
      && path[|ListPathPrefix|..|path| - 5] == listId.value
      && path[|path| - 5..] == "/task"
  {
    if Present(listId) then
      var path := ListPathPrefix + listId.value + "/task";
      assert path[..|ListPathPrefix|] == ListPathPrefix;
      assert path[|ListPathPrefix|..|path| - 5] == listId.value;
      assert path[|path| - 5..] == "/task";
      assert |path| != |AllTasksPath|;
      path
    else AllTasksPath
  }

  // ----- priority -----

  predicate IsPriorityName(lowered: string) {
    lowered == "urgent" || lowered == "high" || lowered == "normal" || lowered == "low"
  }

  /** The create command's priority: the names urgent, high, normal and low in any case
      give 4, 3, 2 and 1; any other text gives parseInt's result, or 2 when that is NaN
      or 0. The result is never 0, and a value outside 1-4 is what parseInt read. */
  function CreatePriority(priority: string): (p: int)
    ensures ToLowerCase(priority) == "urgent" ==> p == 4
    ensures ToLowerCase(priority) == "high" ==> p == 3
    ensures ToLowerCase(priority) == "normal" ==> p == 2
    ensures ToLowerCase(priority) == "low" ==> p == 1
    ensures p != 0
    ensures !IsPriorityName(ToLowerCase(priority)) ==>
      (ParseInt(priority) == Some(p) || (p == 2 && (ParseInt(priority) == None || ParseInt(priority) == Some(0))))
    ensures !(1 <= p <= 4) ==> ParseInt(priority) == Some(p)
  {
    var lowered := ToLowerCase(priority);
    if lowered == "urgent" then 4
    else if lowered == "high" then 3
    else if lowered == "normal" then 2
    else if lowered == "low" then 1
    else
      match ParseInt(priority)
      case None => 2
      case Some(n) => if n == 0 then 2 else n
  }

  /** A numeral that is not a priority name lower-cased can never be one. */
  lemma NumeralIsNoPriorityName(n: int)
    ensures !IsPriorityName(ToLowerCase(IntToString(n)))
  {
    var s := IntToString(n);
    assert s[0] == '-' || '0' <= s[0] <= '9';
    assert ToLowerCase(s)[0] == s[0];
  }

  /** A non-zero number written as a numeral reaches the payload unchanged. */
  lemma CreatePriorityOfNumeral(n: int)
    requires n != 0
    ensures CreatePriority(IntToString(n)) == n
  {
    NumeralIsNoPriorityName(n);
    ParseIntRoundTrip(n);
  }

  /** The update commands' priority: the same names give the strings "4", "3", "2" and
      "1"; any other value is sent as it is. */
  function UpdatePriority(value: string): (p: string)
    ensures ToLowerCase(value) == "urgent" ==> p == "4"
    ensures ToLowerCase(value) == "high" ==> p == "3"
    ensures ToLowerCase(value) == "normal" ==> p == "2"
    ensures ToLowerCase(value) == "low" ==> p == "1"
    ensures !IsPriorityName(ToLowerCase(value)) ==> p == value
  {
    var lowered := ToLowerCase(value);
    if lowered == "urgent" then "4"
    else if lowered == "high" then "3"
    else if lowered == "normal" then "2"
    else if lowered == "low" then "1"
    else value
  }

  /** A priority name matches in any ASCII case: text that spells a name with any of its
      letters capitalised gets that name's level on create and its numeral on update. */
  lemma PriorityNameAnyCase(s: string, name: string, level: int, numeral: string)
    requires (name, level, numeral) in {("urgent", 4, "4"), ("high", 3, "3"), ("normal", 2, "2"), ("low", 1, "1")}
    requires |s| == |name| && forall i :: 0 <= i < |s| ==> CaseVariant(s[i], name[i])
    ensures CreatePriority(s) == level && UpdatePriority(s) == numeral
  {
    assert IsKeyword(name);
    LowerMatchesKeyword(s, name);
  }

  /** For instance "URGENT" and "Low". */
  lemma MixedCasePriorities()
    ensures CreatePriority("URGENT") == 4 && UpdatePriority("URGENT") == "4"
    ensures CreatePriority("Low") == 1 && UpdatePriority("Low") == "1"
  {
    PriorityNameAnyCase("URGENT", "urgent", 4, "4");
    PriorityNameAnyCase("Low", "low", 1, "1");
  }

  lemma DigitNumeral(d: nat)
    requires d < 10
    ensures IntToString(d) == [DigitChar(d)]
    ensures ParseInt([DigitChar(d)]) == Some(d)
  {
    ParseIntRoundTrip(d);
  }

  /** A priority name gives the update commands the numeral of the number it gives the
      create command. */
  lemma PriorityNamesAgree(value: string)
    requires IsPriorityName(ToLowerCase(value))
    ensures UpdatePriority(value) == IntToString(CreatePriority(value))
    ensures ParseInt(UpdatePriority(value)) == Some(CreatePriority(value))
  {
    var lowered := ToLowerCase(value);
    var digit := CreatePriority(value);
    assert 1 <= digit <= 4 && UpdatePriority(value) == [DigitChar(digit)] by {
      if lowered == "urgent" {
      } else if lowered == "high" {
      } else if lowered == "normal" {
      } else {
      }
    }
    DigitNumeral(digit);
  }

  /** A non-zero numeral is passed through by the update commands and parsed to the same
      number by the create command. */
  lemma PriorityNumeralsAgree(n: int)
    requires n != 0
    ensures UpdatePriority(IntToString(n)) == IntToString(n)
    ensures ParseInt(UpdatePriority(IntToString(n))) == Some(CreatePriority(IntToString(n)))
  {
    NumeralIsNoPriorityName(n);
    CreatePriorityOfNumeral(n);
    ParseIntRoundTrip(n);
  }

  // ----- create -----

  /** A JSON value in a request body; Undefined and Null are the ones the create handler
      deletes before sending. */
  datatype JsValue = Undefined | Null | Str(text: string) | Num(number: int) | StrList(items: seq<string>)

  type Payload = map<Field, JsValue>

  predicate Nullish(v: JsValue) {
    v.Undefined? || v.Null?
  }

  /** The options of `task create`; a file's contents are an input of the handler. */
  datatype CreateOptions = CreateOptions(
    listId: string,
    description: Option<string>,
    markdown: Option<string>,
    markdownFile: Option<string>,
    assignees: Option<string>,
    priority: Option<string>,
    due_date: Option<string>,
    status: Option<string>,
    tags: Option<string>)

  /** A text option is used when it is given and not blank (its trimmed text is not empty). */
  predicate HasItems(o: Option<string>) {
    o.Some? && Trim(o.value) != ""
  }

  /** Deletes the keys whose value is undefined or null and keeps every other key with its
      value. */
  method DropNullish(payload: Payload) returns (r: Payload)
    ensures forall k :: k in r <==> k in payload && !Nullish(payload[k])
    ensures forall k :: k in r ==> r[k] == payload[k]
  {
    r := payload;
    var keys := payload.Keys;
    while keys != {}
      invariant keys <= payload.Keys
      invariant forall k :: k in r <==> k in payload && (k in keys || !Nullish(payload[k]))
      invariant forall k :: k in r ==> r[k] == payload[k]
      decreases keys
    {
      var key :| key in keys;
      if Nullish(r[key]) {
        r := r - {key};
      }
      keys := keys - {key};
    }
  }

  /** The keys the create command can set: `name`, `description`, `priority`,
      `assignees`, `status`, `tags` and `due_date`. */
  datatype Field = Name | Description | Priority | Assignees | Status | Tags | DueDate

  /** `key` is in the payload exactly when `v` holds a value, and then maps to it. */
  predicate Entry(p: Payload, key: Field, v: Option<JsValue>) {
    (key in p <==> v.Some?) && (v.Some? ==> p[key] == v.value)
  }

  /** A value that is undefined or null counts as absent. */
  function Defined(v: Option<JsValue>): Option<JsValue> {
    if v.Some? && Nullish(v.value) then None else v
  }

  /** Which description the create command sends: the markdown file's contents, else
      --markdown, else --description, each only when given and not empty. */
  function ChosenDescription(options: CreateOptions, fileContents: string): Option<JsValue> {
    if Present(options.markdownFile) then Some(Str(fileContents))
    else if Present(options.markdown) then Some(Str(options.markdown.value))
    else if Present(options.description) then Some(Str(options.description.value))
    else None
  }

  /** The priority the create command sends, when the option is given. */
  function PriorityEntry(o: Option<string>): (v: Option<JsValue>)
    ensures Defined(v) == v
    ensures v.Some? <==> Present(o)
    ensures v.Some? ==> v.value == Num(CreatePriority(o.value)) && v.value.number != 0
  {
    if Present(o) then Some(Num(CreatePriority(o.value))) else None
  }

  /** A comma list option as the create command sends it: its trimmed parts, when the
      option is not blank. */
  function ListEntry(o: Option<string>): (v: Option<JsValue>)
    ensures Defined(v) == v
    ensures v.Some? <==> HasItems(o)
    ensures v.Some? ==> v.value == StrList(SplitTrim(o.value, ',')) && |v.value.items| == Count(o.value, ',') + 1
  {
    if HasItems(o) then Some(StrList(SplitTrim(o.value, ','))) else None
  }

  /** The status the create command sends: the option untrimmed, when it is not blank. */
  function StatusEntry(o: Option<string>): (v: Option<JsValue>)
    ensures Defined(v) == v
    ensures v.Some? <==> HasItems(o)
    ensures v.Some? ==> v.value == Str(o.value)
  {
    if HasItems(o) then Some(Str(o.value)) else None
  }

  /** A text option the create command sends as it is, when given. */
  function TextEntry(o: Option<string>): (v: Option<JsValue>)
    ensures Defined(v) == v
    ensures v.Some? <==> Present(o)
    ensures v.Some? ==> v.value == Str(o.value)
  {
    if Present(o) then Some(Str(o.value)) else None
  }

  /** The description block of `task create`: a markdown file wins over --markdown, which
      wins over --description; a file that cannot be read stops the handler. */
  method CreateDescription(options: CreateOptions, markdownFileRead: Result<string, string>)
    returns (r: Result<Option<JsValue>, Failure>)
    ensures r.Err? <==> Present(options.markdownFile) && markdownFileRead.Err?
    ensures r.Err? ==> r.error == FileReadFailure(
      "Error reading markdown file \"" + options.markdownFile.value + "\": " + markdownFileRead.error)
    ensures r.Ok? ==> r.value == ChosenDescription(options, if markdownFileRead.Ok? then markdownFileRead.value else "")
    ensures r.Ok? ==> Defined(r.value) == r.value
  {
    if Present(options.markdown) || Present(options.markdownFile) {
      var markdownContent: string;
      if Present(options.markdownFile) {
        match markdownFileRead {
          case Err(reason) =>
            return Err(FileReadFailure("Error reading markdown file \"" + options.markdownFile.value + "\": " + reason));
          case Ok(contents) =>
            markdownContent := contents;
        }
      } else {
        markdownContent := options.markdown.value;
      }
      return Ok(Some(Str(markdownContent)));
    } else if Present(options.description) {
      return Ok(Some(Str(options.description.value)));
    }
    return Ok(None);
  }

  /** The body `task create` posts. `name` is always there; the description follows
      ChosenDescription; priority is there when the option is, as CreatePriority maps it;
      assignees and tags are trimmed comma lists, there when the option is not blank;
      status is there, untrimmed, when it is not blank; due_date is there when given; no
      other key is, and no value is undefined or null. A markdown file that cannot be read
      stops the handler. */
  method BuildCreatePayload(taskName: string, options: CreateOptions, markdownFileRead: Result<string, string>)
    returns (r: Result<Payload, Failure>)
    ensures r.Err? <==> Present(options.markdownFile) && markdownFileRead.Err?
    ensures r.Err? ==> r.error == FileReadFailure(
      "Error reading markdown file \"" + options.markdownFile.value + "\": " + markdownFileRead.error)
    ensures r.Ok? ==> forall k :: k in r.value ==> !Nullish(r.value[k])
    ensures r.Ok? ==> Entry(r.value, Name, Some(Str(taskName)))
    ensures r.Ok? ==> Entry(r.value, Description,
      ChosenDescription(options, if markdownFileRead.Ok? then markdownFileRead.value else ""))
    ensures r.Ok? ==> Entry(r.value, Priority, PriorityEntry(options.priority))
    ensures r.Ok? ==> Entry(r.value, Assignees, ListEntry(options.assignees))
    ensures r.Ok? ==> Entry(r.value, Status, StatusEntry(options.status))
    ensures r.Ok? ==> Entry(r.value, Tags, ListEntry(options.tags))
    ensures r.Ok? ==> Entry(r.value, DueDate, TextEntry(options.due_date))
  {
    var description := CreateDescription(options, markdownFileRead);
    if description.Err? {
      return Err(description.error);
    }
    var priority := PriorityEntry(options.priority);
    var assignees := ListEntry(options.assignees);
    var status := StatusEntry(options.status);
    var tags := ListEntry(options.tags);
    var dueDate := TextEntry(options.due_date);
    var payload := AssemblePayload(taskName, description.value, priority, assignees, status, tags, dueDate);
    return Ok(payload);
  }

  /** The object the create handler builds: `name` always, every other key only when its
      value is there; then the keys holding undefined or null are deleted. */
  method AssemblePayload(taskName: string, description: Option<JsValue>, priority: Option<JsValue>,
                         assignees: Option<JsValue>, status: Option<JsValue>, tags: Option<JsValue>,
                         dueDate: Option<JsValue>)
    returns (r: Payload)
    ensures forall k :: k in r ==> !Nullish(r[k])
    ensures Entry(r, Name, Some(Str(taskName)))
    ensures Entry(r, Description, Defined(description))
    ensures Entry(r, Priority, Defined(priority))
    ensures Entry(r, Assignees, Defined(assignees))
    ensures Entry(r, Status, Defined(status))
    ensures Entry(r, Tags, Defined(tags))
    ensures Entry(r, DueDate, Defined(dueDate))
  {
    var payload: Payload := map[Name := Str(taskName)];
    if description.Some? {
      payload := payload[Description := description.value];
    }
    if priority.Some? {
      payload := payload[Priority := priority.value];
    }
    if assignees.Some? {
      payload := payload[Assignees := assignees.value];
    }
    if status.Some? {
      payload := payload[Status := status.value];
    }
    if tags.Some? {
      payload := payload[Tags := tags.value];
    }
    if dueDate.Some? {
      payload := payload[DueDate := dueDate.value];
    }
    assert Entry(payload, Name, Some(Str(taskName))) && Entry(payload, Description, description)
      && Entry(payload, Priority, priority) && Entry(payload, Assignees, assignees) && Entry(payload, Status, status)
      && Entry(payload, Tags, tags) && Entry(payload, DueDate, dueDate);
    r := DropNullish(payload);
    DroppedEntry(payload, r, Name, Some(Str(taskName)));
    DroppedEntry(payload, r, Description, description);
    DroppedEntry(payload, r, Priority, priority);
    DroppedEntry(payload, r, Assignees, assignees);
    DroppedEntry(payload, r, Status, status);
    DroppedEntry(payload, r, Tags, tags);
    DroppedEntry(payload, r, DueDate, dueDate);
  }

  /** Deleting the undefined and null entries turns an entry into its Defined form. */
  lemma DroppedEntry(payload: Payload, r: Payload, key: Field, v: Option<JsValue>)
    requires forall k :: k in r <==> k in payload && !Nullish(payload[k])
    requires forall k :: k in r ==> r[k] == payload[k]
    requires Entry(payload, key, v)
    ensures Entry(r, key, Defined(v))
  {
  }

  // ----- update -----

  const AllProperties := "name, description, markdown_description, status, priority, assignees, due_date, tags"
  const PositionalProperties := "name, description, status, priority, assignees, due_date, tags"

  /** The property names an update accepts, lower-cased; `markdown_description` only in
      the `update` subcommand, not in the positional form. */
  predicate IsUpdatable(lowered: string, acceptMarkdown: bool) {
    || lowered in {"name", "description", "status", "priority", "assignees", "due_date", "tags"}
    || (acceptMarkdown && lowered == "markdown_description")
  }

  /** The update switch as a table: the body for the lower-cased property name, or None
      for a name that is not accepted. */
  function UpdatePayload(lowered: string, value: string, acceptMarkdown: bool): (r: Option<TaskUpdateOptions>)
    ensures r.Some? <==> IsUpdatable(lowered, acceptMarkdown)
    ensures r.Some? ==> KeyCount(r.value) == 1
  {
    if lowered == "name" then Some(NoUpdates.(name := Some(value)))
    else if lowered == "description" || (acceptMarkdown && lowered == "markdown_description") then
      Some(NoUpdates.(description := Some(value)))
    else if lowered == "status" then Some(NoUpdates.(status := Some(value)))
    else if lowered == "priority" then Some(NoUpdates.(priority := Some(UpdatePriority(value))))
    else if lowered == "assignees" then Some(NoUpdates.(assignees := Some(SplitTrim(value, ','))))
    else if lowered == "due_date" then Some(NoUpdates.(due_date := Some(value)))
    else if lowered == "tags" then Some(NoUpdates.(tags := Some(SplitTrim(value, ','))))
    else None
  }

  /** The positional form and the update subcommand build the same body for every name
      but markdown_description, which only the subcommand accepts. */
  lemma PositionalMatchesUpdate(lowered: string, value: string)
    ensures lowered != "markdown_description" ==> UpdatePayload(lowered, value, false) == UpdatePayload(lowered, value, true)
    ensures UpdatePayload("markdown_description", value, false) == None
    ensures UpdatePayload("markdown_description", value, true) == UpdatePayload("description", value, true)
  {
  }

  /** The update body for one property, chosen by its lower-cased name. Exactly one field
      is set: the named one, except that markdown_description writes description. An
      unknown name is a usage error. */
  method BuildUpdatePayload(propName: string, value: string, acceptMarkdown: bool)
    returns (r: Result<TaskUpdateOptions, Failure>)
    ensures r.Ok? <==> IsUpdatable(ToLowerCase(propName), acceptMarkdown)
    ensures r.Ok? ==> UpdatePayload(ToLowerCase(propName), value, acceptMarkdown) == Some(r.value)
    ensures r.Err? ==> r.error == UnknownProperty("Unknown property: " + propName,
      if acceptMarkdown then AllProperties else PositionalProperties)
    ensures r.Ok? ==> KeyCount(r.value) == 1
    ensures r.Ok? ==> var lowered := ToLowerCase(propName);
      && (lowered == "name" ==> r.value == NoUpdates.(name := Some(value)))
      && (lowered in {"description", "markdown_description"} ==> r.value == NoUpdates.(description := Some(value)))
      && (lowered == "status" ==> r.value == NoUpdates.(status := Some(value)))
      && (lowered == "priority" ==> r.value == NoUpdates.(priority := Some(UpdatePriority(value))))
      && (lowered == "assignees" ==> r.value == NoUpdates.(assignees := Some(SplitTrim(value, ','))))
      && (lowered == "due_date" ==> r.value == NoUpdates.(due_date := Some(value)))
      && (lowered == "tags" ==> r.value == NoUpdates.(tags := Some(SplitTrim(value, ','))))
  {
    var payload := NoUpdates;
    var lowered := ToLowerCase(propName);
    if lowered == "name" {
      payload := payload.(name := Some(value));
    } else if lowered == "description" {
      payload := payload.(description := Some(value));
    } else if lowered == "markdown_description" && acceptMarkdown {
      payload := payload.(description := Some(value));
    } else if lowered == "status" {
      payload := payload.(status := Some(value));
    } else if lowered == "priority" {
      payload := payload.(priority := Some(UpdatePriority(value)));
    } else if lowered == "assignees" {
      payload := payload.(assignees := Some(SplitTrim(value, ',')));
    } else if lowered == "due_date" {
      payload := payload.(due_date := Some(value));
    } else if lowered == "tags" {
      payload := payload.(tags := Some(SplitTrim(value, ',')));
    } else {
      return Err(UnknownProperty("Unknown property: " + propName,
        if acceptMarkdown then AllProperties else PositionalProperties));
    }
    return Ok(payload);
  }

  /** A PUT the handler issues. */
  datatype UpdateCall = UpdateCall(httpMethod: string, path: string, payload: TaskUpdateOptions)

  /** The value an update sends: the named file's contents, or the argument when no file
      is named. */
  function UpdateValue(valueOrFlag: string, file: Option<string>, fileRead: Result<string, string>): string {
    if Present(file) && fileRead.Ok? then fileRead.value else valueOrFlag
  }

  /** `task update <taskId> <property> <value> [--file f]`: the value is the file's
      contents when a file is named, the argument otherwise; a file that cannot be read or
      an unknown property stops the handler before any PUT. */
  method UpdateTaskCommand(taskId: string, propName: string, valueOrFlag: string,
                           file: Option<string>, fileRead: Result<string, string>)
    returns (r: Result<UpdateCall, Failure>)
    ensures Present(file) && fileRead.Err? ==>
      r == Err(FileReadFailure("Error reading file \"" + file.value + "\": " + fileRead.error))
    ensures !(Present(file) && fileRead.Err?) ==> (r.Ok? <==> IsUpdatable(ToLowerCase(propName), true))
    ensures !(Present(file) && fileRead.Err?) && r.Err? ==>
      r.error == UnknownProperty("Unknown property: " + propName, AllProperties)
    ensures r.Ok? ==> r.value.httpMethod == "PUT" && r.value.path == TaskPath(taskId)
    ensures r.Ok? ==> Some(r.value.payload) == UpdatePayload(ToLowerCase(propName), UpdateValue(valueOrFlag, file, fileRead), true)
    ensures r.Ok? ==> KeyCount(r.value.payload) == 1
  {
    var updateValue: string;
    if Present(file) {
      match fileRead {
        case Err(reason) =>
          return Err(FileReadFailure("Error reading file \"" + file.value + "\": " + reason));
        case Ok(contents) =>
          updateValue := contents;
      }
    } else {
      updateValue := valueOrFlag;
    }
    var payload := BuildUpdatePayload(propName, updateValue, true);
    match payload {
      case Err(failure) => return Err(failure);
      case Ok(body) => return Ok(UpdateCall("PUT", TaskPath(taskId), body));
    }
  }

  // ----- the `task` command's own arguments -----

  predicate IsDecimalDigit(c: char) { '0' <= c <= '9' }
  predicate IsHexDigit(c: char) { IsDecimalDigit(c) || 'a' <= c <= 'f' || 'A' <= c <= 'F' }
  predicate IsAlphanumeric(c: char) { IsDecimalDigit(c) || 'a' <= c <= 'z' || 'A' <= c <= 'Z' }

  predicate StartsWith(s: string, prefix: string) {
    |prefix| <= |s| && s[..|prefix|] == prefix
  }

  /** The four alternatives of the task-id test, as written: an "ac_" prefix, or six or more
      characters matching /^[a-f0-9]{6,}$/i, /^[0-9]{6,}$/ or /^[a-z0-9]{6,}$/i. */
  predicate IsTaskId(s: string) {
    || StartsWith(s, "ac_")
    || (|s| >= 6 && forall i :: 0 <= i < |s| ==> IsHexDigit(s[i]))
    || (|s| >= 6 && forall i :: 0 <= i < |s| ==> IsDecimalDigit(s[i]))
    || (|s| >= 6 && forall i :: 0 <= i < |s| ==> IsAlphanumeric(s[i]))
  }

  /** The hexadecimal and all-digit alternatives add nothing: a task id is a token that
      starts with "ac_" or is six or more ASCII letters and digits. */
  lemma TaskIdSimplified(s: string)
    ensures IsTaskId(s) <==> StartsWith(s, "ac_") || (|s| >= 6 && forall i :: 0 <= i < |s| ==> IsAlphanumeric(s[i]))
  {
  }

  /** Where `task [taskId] [args...]` goes. */
  datatype TaskRoute =
    | MissingTaskId
    | NotATaskId(token: string)
    | ShowTask(taskId: string)
    | UpdateProperty(taskId: string, property: string, value: string)

  /** No (or an empty) first argument asks for a subcommand; a token that is no task id is
      refused; with two or more further arguments, the first not empty, the call updates
      the property they name to the rest joined by single spaces; otherwise it shows the
      task. */
  function RouteTask(taskId: Option<string>, args: seq<string>): (r: TaskRoute)
    ensures r.MissingTaskId? <==> !Present(taskId)
    ensures r.NotATaskId? <==> Present(taskId) && !IsTaskId(taskId.value)
    ensures r.UpdateProperty? <==> Present(taskId) && IsTaskId(taskId.value) && |args| >= 2 && args[0] != ""
    ensures r.UpdateProperty? ==> r.taskId == taskId.value && r.property == args[0]
    ensures r.UpdateProperty? ==> r.value == Join(args[1..], ' ')
    ensures r.ShowTask? ==> r.taskId == taskId.value
  {
    if !Present(taskId) then MissingTaskId
    else if !IsTaskId(taskId.value) then NotATaskId(taskId.value)
    else if |args| >= 2 && args[0] != "" then UpdateProperty(taskId.value, args[0], Join(args[1..], ' '))
    else ShowTask(taskId.value)
  }

  /** The value of a positional update is the remaining arguments joined by single spaces:
      split at the spaces, it gives those arguments back when none of them holds a space. */
  lemma PositionalValueWords(taskId: Option<string>, args: seq<string>)
    requires RouteTask(taskId, args).UpdateProperty?
    requires forall i :: 1 <= i < |args| ==> ' ' !in args[i]
    ensures Split(RouteTask(taskId, args).value, ' ') == args[1..]
  {
    var words := args[1..];
    forall i | 0 <= i < |words|
      ensures ' ' !in words[i]
    {
      assert words[i] == args[i + 1];
    }
    SplitJoin(words, ' ');
  }

  /** `task abc123 name "My task" v2` renames the task to `My task v2`: the quoted
      argument keeps its space and the next one follows after a single space. */
  lemma RouteJoinsValue()
    ensures RouteTask(Some("abc123"), ["name", "My task", "v2"]) == UpdateProperty("abc123", "name", "My task v2")
  {
    assert IsTaskId("abc123");
    assert ["name", "My task", "v2"][1..] == ["My task", "v2"];
    assert Join(["My task", "v2"], ' ') == "My task v2";
  }

  /** The positional update `task <taskId> <property> <value...>`: the same switch as the
      update subcommand without markdown_description. */
  method PositionalUpdate(taskId: string, property: string, value: string) returns (r: Result<UpdateCall, Failure>)
    ensures r.Ok? <==> IsUpdatable(ToLowerCase(property), false)
    ensures r.Ok? ==> r.value.httpMethod == "PUT" && r.value.path == TaskPath(taskId) && KeyCount(r.value.payload) == 1
    ensures r.Ok? ==> Some(r.value.payload) == UpdatePayload(ToLowerCase(property), value, false)
    ensures r.Err? ==> r.error == UnknownProperty("Unknown property: " + property, PositionalProperties)
  {
    var payload := BuildUpdatePayload(property, value, false);
    match payload {
      case Err(failure) => return Err(failure);
      case Ok(body) => return Ok(UpdateCall("PUT", TaskPath(taskId), body));
    }
  }

  // ----- rm -----

  datatype DeleteResult = DeleteResult(taskId: string, success: bool, error: Option<string>)

  function Succeeded(results: seq<DeleteResult>): nat {
    if results == [] then 0 else Succeeded(results[..|results| - 1]) + (if results[|results| - 1].success then 1 else 0)
  }

  function FailedCount(results: seq<DeleteResult>): nat {
    if results == [] then 0 else FailedCount(results[..|results| - 1]) + (if results[|results| - 1].success then 0 else 1)
  }

  /** Every result is counted once, as a success or as a failure; there are no failures
      exactly when every deletion succeeded. */
  lemma {:induction false} TallyAddsUp(results: seq<DeleteResult>)
    ensures Succeeded(results) + FailedCount(results) == |results|
    ensures FailedCount(results) == 0 <==> forall i :: 0 <= i < |results| ==> results[i].success
  {
    if results != [] {
      TallyAddsUp(results[..|results| - 1]);
    }
  }

  /** A call of makeApiRequest without a body: the method and the path. */
  datatype ApiCall = ApiCall(httpMethod: string, path: string)

  /** One DELETE call per id, in order; respond(i) is how the i-th call settles, which
      covers a refusal by https.request (see TaskPathRefused). A failure is recorded with
      its message and the loop goes on to the next id. */
  method DeleteEach<J>(ids: seq<string>, respond: nat -> Outcome<J>)
    returns (results: seq<DeleteResult>, calls: seq<ApiCall>)
    ensures |results| == |ids| && |calls| == |ids|
    ensures forall i :: 0 <= i < |ids| ==> calls[i] == ApiCall("DELETE", TaskPath(ids[i])) && results[i].taskId == ids[i]
    ensures forall i :: 0 <= i < |ids| ==> (results[i].success <==> respond(i).Resolved?)
    ensures forall i :: 0 <= i < |ids| ==>
      results[i].error == (if respond(i).Rejected? then Some(respond(i).error.message) else None)
  {
    results := [];
    calls := [];
    for i := 0 to |ids|
      invariant |results| == i && |calls| == i
      invariant forall j :: 0 <= j < i ==> calls[j] == ApiCall("DELETE", TaskPath(ids[j])) && results[j].taskId == ids[j]
      invariant forall j :: 0 <= j < i ==> (results[j].success <==> respond(j).Resolved?)
      invariant forall j :: 0 <= j < i ==>
        results[j].error == (if respond(j).Rejected? then Some(respond(j).error.message) else None)
    {
      var taskId := ids[i];
      calls := calls + [ApiCall("DELETE", TaskPath(taskId))];
      match respond(i) {
        case Resolved(_) =>
          results := results + [DeleteResult(taskId, true, None)];
        case Rejected(error) =>
          results := results + [DeleteResult(taskId, false, Some(error.message))];
      }
    }
  }

  /** An id holding a character outside U+0021..U+00FF, a space say, makes a task path
      that https.request refuses: makeApiRequest sends nothing for it and rejects with
      Node's error, whatever the method and the key. */
  lemma TaskPathRefused(apiKey: string, httpMethod: string, taskId: string, i: nat)
    requires i < |taskId| && !PathChar(taskId[i])
    ensures RequestRefusal(apiKey, httpMethod, TaskPath(taskId)) == Some(UnescapedPath)
  {
    assert TaskPath(taskId)[13 + i] == taskId[i];
  }

  /** An id of characters in U+0021..U+00FF with a key of valid header characters makes a
      request that goes out, for each method the task handlers use on a task path. */
  lemma TaskPathAccepted(apiKey: string, httpMethod: string, taskId: string)
    requires httpMethod in {"GET", "PUT", "DELETE"}
    requires EscapedPath(taskId) && ValidHeaderValue(apiKey)
    ensures RequestRefusal(apiKey, httpMethod, TaskPath(taskId)) == None
  {
    var path := TaskPath(taskId);
    forall k | 0 <= k < |path|
      ensures PathChar(path[k])
    {
      if k >= 13 {
        assert path[k] == taskId[k - 13];
      }
    }
  }

  /** `task rm "abc def"` deletes nothing: the one id holds a space. */
  lemma SpacedIdRefused(apiKey: string)
    ensures RequestRefusal(apiKey, "DELETE", TaskPath("abc def")) == Some(UnescapedPath)
  {
    TaskPathRefused(apiKey, "DELETE", "abc def", 3);
  }

  /** `task rm <ids>`: the ids are the comma-separated parts of the argument, trimmed,
      empty ones included, each deleted in turn. Successes and failures add up to the
      number of ids, and the exit status is 1 exactly when some deletion failed. */
  method DeleteTasks<J>(taskIds: string, respond: nat -> Outcome<J>)
    returns (results: seq<DeleteResult>, calls: seq<ApiCall>, successful: nat, failed: nat, exitCode: int)
    ensures |results| == |calls| == Count(taskIds, ',') + 1
    ensures forall i :: 0 <= i < |results| ==>
      calls[i] == ApiCall("DELETE", TaskPath(SplitTrim(taskIds, ',')[i])) && (results[i].success <==> respond(i).Resolved?)
    ensures successful + failed == |results|
    ensures successful == Succeeded(results)
    ensures exitCode == (if failed > 0 then 1 else 0)
    ensures exitCode == 0 <==> forall i :: 0 <= i < |results| ==> respond(i).Resolved?
  {
    var taskIdArray := SplitTrim(taskIds, ',');
    results, calls := DeleteEach(taskIdArray, respond);
    successful := Succeeded(results);
    failed := FailedCount(results);
    TallyAddsUp(results);
    exitCode := if failed > 0 then 1 else 0;
  }
}
