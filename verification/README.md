# SignalChop, modelled in Dafny

SignalChop is a command-line SignalR client. It connects to a hub, sends and
invokes hub methods with arguments typed on the command line, listens for
invocations from the server and prints them as JSON, and can quit after a
given number of received messages. This project models its core in Dafny and
proves properties of that model:

- `hub_protocol.dfy` (module `HubProtocol`) models the catch-all hub protocol
  of `SignalChop/FileName.cs`. It wraps the JSON hub protocol, cuts one
  0x1E-terminated record off the input and peeks into it. An invocation whose
  target the binder does not know, or whose argument count does not match,
  goes to the reserved target `$__catchAll` with the whole envelope as its
  only argument. Every other record goes to the inner parser with the input
  restored.
- `dynamic_json.dfy` (module `DynamicJson`) models the `dynamic` JSON
  converter of `SignalChop/DynamicJsonConverter.cs`. The copy nested in
  `SignalChop/Program.cs` (lines 340-473) follows the same rules, branch for
  branch, and is modelled by the same functions.
- `session.dfy` (module `Session`) models the session object of
  `SignalChop/SignalChopper.cs`. It covers the subscription table, the gate
  on the connection state, argument marshalling and the auto-quit counter.
- `program.dfy` (module `LegacyProgram`) models the older entry point
  `SignalChop/Program.cs`. It covers the quote-aware tokenizer, the command
  dispatch and read loop, and that file's own copies of `Quit`, `Listen`,
  `OnReceived`, `Send` and `ConvertSendArguments`.
- `json.dfy`, `sequences.dfy` and `wrappers.dfy` hold the shared pieces: the
  JSON tree with `TryGetProperty`, the sequence operations behind
  `string.Split`, `string.Join` and `string.Trim`, and the
  `Option`/`Result`/`Outcome` wrappers.

Library code is not re-implemented. Its behaviour is passed in as
function-valued parameters:

- `JsonDocument.Parse` and `JsonSerializer`'s text parse;
- the `TryGetInt32`/`TryGetInt64`/`TryGetDouble`/`TryGetDecimal`/`TryGetDateTime`/`TryGetDateTimeOffset` conversions;
- the inner `JsonHubProtocol` and the `IInvocationBinder`;
- `int.Parse`;
- whether starting a connection to a server succeeds.

The hub connection is an abstract `ConnectionState`, or `None` while no
connection object exists. A subscription handle is the index of its
registration in the list of all registrations, and disposing a handle adds it
to a `disposed` set. `Environment.Exit` sets an `exited` flag.

Two behaviours of the code worth noting:

- A JSON number that converts as Int64, Double and Decimal alike decodes to a
  Decimal, not an integer. The code keeps the last conversion that succeeds
  (`DynamicJsonConverter.cs:73-90`).
- The connection states are the four of `HubConnectionState`: Disconnected,
  Connecting, Connected and Reconnecting. There is no separate Closed state.

## Model

| member | source | states |
|---|---|---|
| Json.GetProperty | SignalChop/FileName.cs:61-65 | `TryGetProperty` finds a member exactly when one has that name; with duplicate names the last member of that name is matched |
| Sequences.IndexOf | SignalChop/FileName.cs:117 | the reader stops at the first 0x1E: the index holds the separator and no earlier element does; absent exactly when there is none |
| Sequences.Split | SignalChop/Program.cs:54 | `Split('\n')` yields at least one piece, and no piece contains the separator |
| Sequences.JoinSplit | SignalChop/Program.cs:54 | joining the pieces of a split with a glue element equals replacing every separator by the glue |
| Sequences.Trim | SignalChop/SignalChopper.cs:172-173 | `Trim` removes exactly the leading and trailing run of stripped elements: the result is a contiguous slice of the input, everything cut off is in the strip set, and the result neither starts nor ends with one |
| HubProtocol.TryReadFrame | SignalChop/FileName.cs:113-125 | succeeds exactly when the input holds a 0x1E; the input is then payload + separator + rest with no separator in the payload, so the consumed length is the payload length plus one; on failure the payload is empty and the input is unchanged |
| HubProtocol.ArgumentCount | SignalChop/FileName.cs:68-72 | the argument count is the length of `arguments` when it is an array and 0 otherwise |
| HubProtocol.Peek | SignalChop/FileName.cs:61-100 | a parsed record is rerouted exactly when it is an invocation (numeric `type` reading as the Int32 1, string `target`) and the binder throws for the target or expects a different count, a null parameter list counting as 0; the rerouted message is the invocation to `$__catchAll` with the record's string `invocationId` and the record as its only argument |
| HubProtocol.RerouteConditions | SignalChop/FileName.cs:61-87 | the reroute rule stated over the record's members: an object, a `type` number reading as 1, a string `target`, and an unknown target or a count mismatch, all four required |
| HubProtocol.RerouteKeepsEnvelope | SignalChop/FileName.cs:89-98 | a rerouted message targets `$__catchAll`, has exactly one argument equal to the whole record, still shows the original target, and carries an invocation id exactly when the record's `invocationId` is a string |
| HubProtocol.CatchAllJsonHubProtocol.TryParseMessage | SignalChop/FileName.cs:42-111 | without a complete record the result is false, no message and the input as it was; a rerouted record is consumed and the input stays advanced past exactly its separator; in every other case the input is restored and the result is the inner parser's |
| HubProtocol.FrameUnaffectedByLaterBytes | SignalChop/FileName.cs:113-124 | bytes arriving after a complete record change neither the record cut nor the rest, which they only extend |
| HubProtocol.IncompleteFrameCompletedLater | SignalChop/FileName.cs:44-52 | the bytes of an incomplete record, left in the input, begin the record cut once its separator has arrived |
| HubProtocol.PassThroughMembers | SignalChop/FileName.cs:23-39 | `Name`, `Version`, `TransferFormat`, `IsVersionSupported`, `GetMessageBytes` and `WriteMessage` are the inner protocol's |
| HubProtocol.InvocationFramePeek | SignalChop/FileName.cs:61-100 | a well-formed invocation record with n arguments is rerouted exactly when the binder does not expect n arguments |
| HubProtocol.MatchingInvocationPassesThrough | SignalChop/FileName.cs:87 | `Foo(1, 2)` against a binder expecting two arguments for `Foo` is not rerouted |
| HubProtocol.ArityMismatchRerouted | SignalChop/FileName.cs:87-99 | `Foo(1)` against that binder is rerouted with the whole envelope and no invocation id |
| HubProtocol.UnknownTargetRerouted | SignalChop/FileName.cs:77-99 | an invocation of `Bar`, for which the binder throws, is rerouted |
| DynamicJson.ReadNumber | SignalChop/DynamicJsonConverter.cs:73-90 | the last conversion that succeeds, in the order Int64, Double, Decimal, is the result; the Int32 zero when none does |
| DynamicJson.ReadString | SignalChop/DynamicJsonConverter.cs:60-72 | a DateTimeOffset parse wins over a DateTime parse, and either wins over the text |
| DynamicJson.ReadValue | SignalChop/DynamicJsonConverter.cs:49-106 | total over the JSON kinds; the result is null exactly for JSON null and the empty array; every decoded tree has objects with distinct names and no null values, and no empty lists |
| DynamicJson.ReadObject | SignalChop/DynamicJsonConverter.cs:33-47 | an object decodes to an expando, which is well formed |
| DynamicJson.ReadList | SignalChop/DynamicJsonConverter.cs:108-112 | an empty array decodes to null, a non-empty one to a list of the same length |
| DynamicJson.PutGet | SignalChop/DynamicJsonConverter.cs:42 | after `expando[k] = v`, key k reads v and every other key reads as before |
| DynamicJson.PutFields | SignalChop/DynamicJsonConverter.cs:42 | storing under a key keeps the names distinct and adds no field but the stored one |
| DynamicJson.FillWellFormed | SignalChop/DynamicJsonConverter.cs:36-44 | the filled expando has distinct names and only non-null values taken from the decoded members |
| DynamicJson.FillKeepsLastNonNull | SignalChop/DynamicJsonConverter.cs:36-44 | a key is present exactly when some member of that name decoded to non-null, and it holds the last such value |
| DynamicJson.ReadObjectKeepsLastNonNull | SignalChop/DynamicJsonConverter.cs:33-47 | the same in terms of the JSON members: a later non-null duplicate overwrites an earlier one, and null-decoding members never appear |
| DynamicJson.NullMembersDropped | SignalChop/DynamicJsonConverter.cs:39-43 | members whose value is JSON null or an empty array disappear from the decoded object |
| DynamicJson.ReadListElementwise | SignalChop/DynamicJsonConverter.cs:108-112 | element i of a decoded non-empty array is the decoding of element i, null elements kept |
| DynamicJson.Read | SignalChop/DynamicJsonConverter.cs:12-26 | the entry point fails exactly on a number that is neither Int64 nor double; it never yields null; a number is the Int64 when one fits and the double otherwise; a string is the DateTime when it parses and the text otherwise; an object is `ReadObject` of its members; a boolean stays a boolean; arrays and null come back as the raw element |
| DynamicJson.ReadDiffersFromReadValue | SignalChop/DynamicJsonConverter.cs:15-25 | the entry point agrees with `ReadValue` on booleans and objects, and differs on Int64 numbers that are also Decimals, on strings that are also DateTimeOffsets, and on the empty array |
| Session.LooksLikeJsonIsTrimStartsWith | SignalChop/SignalChopper.cs:173 | the JSON test is exactly "the whitespace-trimmed text starts with `{`" |
| Session.ConvertArgument | SignalChop/SignalChopper.cs:172-183 | an argument is decoded, or fails to decode, exactly when its quote-trimmed text passes the JSON test; a decoded argument is exactly what the deserializer gives for that text, and a failure carries the deserializer's error; otherwise it is kept as the quote-trimmed string, which neither starts nor ends with a quote |
| Session.CountdownAfter | SignalChop/SignalChopper.cs:216-219 | with the counter armed at k, after n <= k receptions the count is k - n and the session has quit exactly when n = k |
| Session.QuitAfterCount | SignalChop/SignalChopper.cs:216-219 | exactly k receptions end a session armed with k: none before, and the k-th does |
| Session.UnarmedCounterUnchanged | SignalChop/SignalChopper.cs:216 | a reception leaves a counter of 0 or less untouched |
| Session.AtMostOneLive | SignalChop/SignalChopper.cs:113-120 | in a consistent subscription table, at most one handler per name is live, and it is the one stored under the name |
| Session.SignalChopper.CheckConnection | SignalChop/SignalChopper.cs:21-31 | true exactly when a connection exists and its state is Connected |
| Session.SignalChopper.Connect | SignalChop/SignalChopper.cs:64-74 | a server string the builder rejects leaves the old connection as it was; otherwise the new connection replaces the old one before it is started, and is Connected when the start succeeds and Disconnected when it fails |
| Session.SignalChopper.Quit | SignalChop/SignalChopper.cs:54-62 | stores n, and the process ends exactly when n is 0 |
| Session.SignalChopper.ConvertSendArguments | SignalChop/SignalChopper.cs:167-187 | the array has one element per argument, element i being the conversion of argument i; the first argument whose JSON does not decode aborts the conversion with that error |
| Session.SignalChopper.Send | SignalChop/SignalChopper.cs:76-88 | nothing is sent while the session is not connected, and the outcome says so exactly then; when connected, either the call goes out with the target and every argument converted, or the first argument that fails to convert aborts the send with its error |
| Session.SignalChopper.Invoke | SignalChop/SignalChopper.cs:90-104 | returns `NoResult`, the early `return null` at `SignalChopper.cs:94`, exactly when not connected; when connected, either it invokes with the target and every argument converted and returns the server's reply, which is null (`Success(None)`) for a completion without a result, or the first argument that fails to convert aborts with its error. The caller prints the same notice for both nulls; the model keeps them apart |
| Session.SignalChopper.StopListen | SignalChop/SignalChopper.cs:128-134 | disposes the handle stored for the name, if any, and keeps the key; no handler for the name stays live; an empty command is an index error |
| Session.SignalChopper.Listen | SignalChop/SignalChopper.cs:106-126 | changes nothing unless connected; otherwise the old handler is disposed, a handler expecting one argument per label is registered and stored under the name, other names are untouched, and it is the only live handler for the name |
| Session.SignalChopper.OnReceived | SignalChop/SignalChopper.cs:189-222 | each label is paired, in order, with the argument at its position, strings quoted and other values raw; the counter then takes one reception step |
| LegacyProgram.InQuoteParity | SignalChop/Program.cs:41-44 | the quoted state is the parity of the number of quotes read |
| LegacyProgram.SeparateAt | SignalChop/Program.cs:39-52 | from any starting state, character i is turned into a separator exactly when it is an unquoted space not following a space or separator |
| LegacyProgram.SeparatorRule | SignalChop/Program.cs:39-52 | on a whole line, a space becomes a split point exactly when the quotes up to it are balanced and the character before it is neither a space nor a line break |
| LegacyProgram.OnlySpacesRewritten | SignalChop/Program.cs:37-52 | the length is kept, and a character either stays, quotes included, or is a space turned into a line break |
| LegacyProgram.TokensRejoin | SignalChop/Program.cs:37-54 | for a line without line breaks, the tokens joined by single spaces give the line back |
| LegacyProgram.PlainWordsSplitAtSpaces | SignalChop/Program.cs:46-54 | in a line without quotes or double spaces, every space is a split point |
| LegacyProgram.RunOfSpacesSplitsOnce | SignalChop/Program.cs:46-54 | `a  b` gives the tokens `a` and ` b`: a run of spaces splits once and the other spaces lead the next token |
| LegacyProgram.QuotedSpaceKept | SignalChop/Program.cs:41-54 | `'a b'` is one token, quotes kept |
| LegacyProgram.Program.ParseMultiSpacedArguments | SignalChop/Program.cs:34-55 | the tokens are the line rewritten in place by the separator rule and then split at the line breaks, so there is always at least one token |
| LegacyProgram.LegacyNeverAutoQuits | SignalChop/Program.cs:260-263 | as written, any number of receptions leaves the counter and the exit flag as they were |
| LegacyProgram.AutoQuitDiscrepancy | SignalChop/Program.cs:260-263 | armed with k, the as-written handler is still running after k receptions, while the corrected one has quit |
| LegacyProgram.LegacyConvertArgument | SignalChop/Program.cs:323-334 | JSON arguments convert as in the session; any other argument i becomes character i of its quote-trimmed text, or an index error when that text is too short; a string is never sent |
| LegacyProgram.ShortConversionDiscrepancy | SignalChop/Program.cs:333 | as written `abc` in position 0 is sent as the character `a`; corrected it is the string `abc` |
| LegacyProgram.OutOfRangeConversionDiscrepancy | SignalChop/Program.cs:333 | as written `b` in position 1 raises an index error; corrected it is the string `b` |
| LegacyProgram.Program.Quit | SignalChop/Program.cs:215-223 | stores n, and sets the exit flag exactly when n is 0 |
| LegacyProgram.Program.Connect | SignalChop/Program.cs:203-213 | a server string the builder rejects leaves the old connection as it was; otherwise the new connection replaces the old one, and is Connected when the start succeeds and Disconnected when it fails |
| LegacyProgram.Program.StopListen | SignalChop/Program.cs:225-231 | disposes the handle stored for the name, if any, and keeps the key; an empty command is an index error |
| LegacyProgram.Program.Listen | SignalChop/Program.cs:233-247 | disposes the old handler first; registers on any existing connection object, connected or not; with none the library refuses the missing connection after the old handler is gone |
| LegacyProgram.Program.OnReceived | SignalChop/Program.cs:249-266 | labels are paired with raw arguments, and the pre-decrement call to `Quit` leaves counter and exit flag unchanged |
| LegacyProgram.Program.ConvertSendArguments | SignalChop/Program.cs:318-338 | element i is the as-written conversion of argument i; the first failing argument aborts the conversion |
| LegacyProgram.Program.Send | SignalChop/Program.cs:309-316 | the arguments are converted before a missing connection is noticed: the first argument that fails to convert faults the send with its error; with every argument converted, a missing connection faults with `NoConnection` and an inactive one with `InvalidOperation`; the call goes out exactly when connected and all arguments convert |
| LegacyProgram.Program.RunCommand | SignalChop/Program.cs:98-141 | dispatch on the first token: an unknown command changes nothing; `Send` with fewer than two tokens does nothing; `Quit` without a count quits at once, a bad count raises, and `Quit` never touches the connection or the subscriptions; `Connect`, `Listen` and `StopListen` without an argument raise an index error and change nothing; `Connect <server>` sets only the connection, by the outcome of the attempt; `StopListen <name>` only disposes the stored handler and leaves none live; `Listen <name>` disposes the old handler, then registers a new one and leaves it the only live one, or, with no connection, raises and changes nothing else; `Listen` and `StopListen` never touch the connection, the counter or the exit flag |
| LegacyProgram.Program.Run | SignalChop/Program.cs:57-90 | the loop ends with code 0 only once the exit flag is set, and every exit code is 0 or 1 |

## Left out

- Building and starting the hub connection, automatic reconnect and the Closed/Reconnected/Reconnecting handlers (`SignalChopper.cs:33-52`, `SignalChopper.cs:136-165`, `Program.cs:268-307`) are network I/O. `Connect` takes the outcome of the attempt as a parameter: the builder rejects the server string, the start fails, or it succeeds. State changes made by the transport on its own (reconnecting, dropping) are not modelled.
- `connection?.DisposeAsync()` in both `Quit`s is not modelled. In `SignalChopper.Quit` the process ends right after it (`Environment.Exit`), so nothing observes the disposal.
- LegacyProgram.Program.Run: after `Quit` with a count of 0, `Program.Quit` only starts disposing the connection and sets `exit`, and the command-file loop (`Program.cs:71-74`) still runs the remaining lines. Those lines meet a connection whose disposal has begun. The model keeps the connection as it was, so a later `Listen` or `Send` in the same file registers or delivers on the old connection state.
- Handlers stay registered on the connection object they were made on. The model's subscription table does not tie handles to a connection, so a `Connect` that replaces the connection does not invalidate them.
- Console output is not modelled beyond the pairing of labels with received values. This covers `ShowGeneralHelp`, `Help` (`Program.cs:92-96`, `Program.cs:152-201`) and the "not connected" notice of `Program.CheckConnection` (`Program.cs:143-150`), which changes no state.
- The `VerboseMode` and quiet-mode flags only switch output on and off, so they are not modelled.
- Concurrency is not modelled. Received invocations run on the connection's threads, and `async void Send` in `Program.cs` runs fire-and-forget. The model runs `OnReceived` as an ordinary call. A fault in `async void Send` is an outcome that ends the process; when it happens relative to later commands is not modelled.
- A hub error in reply to `Program.Send`'s `InvokeCoreAsync` is not modelled, because it depends on the server. Refusal by a connection that is not active is modelled.
- The numeric, date and parsing conversions of System.Text.Json, the inner `JsonHubProtocol` and the binder are not re-implemented. They are parameters.
- The `Undefined` value kind and the `ArgumentOutOfRangeException` branch of `ReadValue` (`DynamicJsonConverter.cs:97-102`) cannot occur on a parsed document, so the JSON datatype has no such kind.
- `JsonSerializer` does not call the converter for a JSON `null` token. This cannot arise, because only text whose first significant character is `{` is deserialized.
- `StartsWith("{")` in `Program.cs:324` is a culture-sensitive comparison. It is modelled as the ordinal comparison that `SignalChopper.cs:173` makes.
- The command classes (`ConnectCommand.cs`, `SendCommand.cs`, `InvokeCommand.cs`, `ListenCommand.cs`, `StopListenCommand.cs`, `QuitCommand.cs`, `HelpCommand.cs`, `SignalChopCommand.cs`) and the example server (`SignalChop.Example`) are not part of this model.
- `File.ReadAllLinesAsync` is not modelled. The command file's lines are a parameter of `Run`, and so are the console's lines. The console running dry stands for `ReadLine` returning null.
- Counters are unbounded integers. The source's `int` never wraps here: the count is only decremented when positive, and `int.Parse` is a parameter returning 32-bit values.
- LegacyProgram.Program.Run: states only that exit code 0 needs the exit flag and that codes are 0 or 1. The full trace of commands is not tied to the outcome.
- LegacyProgram.LegacyConvertArgument: strings are sequences of Unicode scalar values, while `arg[i]` at `Program.cs:333` indexes UTF-16 code units. For an argument with characters outside the Basic Multilingual Plane the model differs: `Send m x` followed by U+1F600 as the second argument sends that character's low surrogate in the source, but raises an index error in the model. Both agree on text made only of BMP characters.
- HubProtocol.CatchAllJsonHubProtocol.TryParseMessage: the parse outcome cannot carry an exception. The inner `JsonHubProtocol.TryParseMessage` (called at `FileName.cs:110`) throws on a malformed record, and the decorator passes that exception on. In the model, the inner parser's outcome is returned as a plain result.
- `NoConnection` stands for the library's refusal of a call on a connection that was never built. The library code (`HubConnectionExtensions`) is not part of this model, so the exact exception type is not modelled.
- LegacyProgram.Program.RunCommand: for `Send` with a target the contract states only that the outcome is Delivered or Faulted, the target of a delivered call, and that no state changes. The delivered arguments are the contract of `Send`.

## Findings

| source | as written | input that shows it | evidently intended | confidence | as-written member | corrected member |
|---|---|---|---|---|---|---|
| SignalChop/Program.cs:333 | `result[i] = arg[i]` stores character i of the quote-trimmed argument | `Send m abc` sends the character `a`; `Send m a b` raises IndexOutOfRange on `b` | store the trimmed string, as `SignalChopper.cs:182` does | high, not executed | LegacyProgram.ShortConversionDiscrepancy | Session.ConvertArgument |
| SignalChop/Program.cs:262 | `this.Quit(this.waitCount--)` hands `Quit` the value before the decrement, which `Quit` then stores back | with the counter armed at 1 (`Quit 1`), a received message calls `Quit(1)`, and the session never ends | `Quit(--this.waitCount)`, as `SignalChopper.cs:218` does | high, not executed | LegacyProgram.LegacyNeverAutoQuits | Session.QuitAfterCount |
