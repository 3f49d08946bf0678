/**
 * The connection session of SignalChop/SignalChopper.cs: the subscription
 * table, the gate on the connection state, the marshalling of command-line
 * arguments and the auto-quit counter.  The hub connection itself is an
 * abstract state; a subscription handle is the index of its registration
 * in the list of every handler ever registered, and disposing it adds it
 * to `disposed`.
 */
module Session {
  import opened Wrappers
  import opened Json
  import opened DynamicJson
  import Sequences

  /** `HubConnectionState`. */
  datatype ConnectionState = Disconnected | Connected | Connecting | Reconnecting

  /**
   * The exceptions the modelled code can raise.  `NoConnection` is a call
   * made on a connection that was never built; the client library's
   * extension methods (`On`, `InvokeCoreAsync`) refuse it with an
   * `ArgumentNullException`.
   */
  datatype Exception = IndexOutOfRange | NoConnection | InvalidInteger | InvalidOperation | InvalidJson(error: ReadError)

  /**
   * How a `Connect <server>` attempt ends: the builder rejects the server
   * string before anything is stored, the new connection is stored but
   * does not start, or it starts.
   */
  datatype ConnectAttempt = BuildRejected | StartFailed | Started

  /** The characters `char.IsWhiteSpace` accepts, which `string.Trim()` removes. */
  const WhiteSpace: set<char> := {
    '\U{9}', '\U{A}', '\U{B}', '\U{C}', '\U{D}', '\U{20}', '\U{85}', '\U{A0}',
    '\U{1680}', '\U{2000}', '\U{2001}', '\U{2002}', '\U{2003}', '\U{2004}', '\U{2005}', '\U{2006}',
    '\U{2007}', '\U{2008}', '\U{2009}', '\U{200A}', '\U{2028}', '\U{2029}', '\U{202F}', '\U{205F}',
    '\U{3000}' }

  const Quote: char := '\''

  /** One element of the `object[]` handed to the hub connection. */
  datatype SendArgument = Structured(value: Dynamic) | Literal(text: string) | Character(c: char)

  /** An invocation handed to the hub connection. */
  datatype Call = Call(target: string, arguments: seq<SendArgument>)

  datatype SendOutcome = NotConnected | Sent(call: Call) | ConversionFailed(error: Exception)

  datatype InvokeOutcome = NoResult | Invoked(call: Call, reply: Result<Option<Json>, string>) | InvokeFailed(error: Exception)

  /** A handler registered with `connection.On`: the hub method and the labels of its parameters. */
  datatype Registration = Registration(name: string, labels: seq<string>)

  /** One received argument as `OnReceived` writes it: strings quoted, everything else as raw JSON. */
  datatype Shown = Quoted(tag: string, text: string) | Raw(tag: string, value: Json)

  /** The counter and exit flag `OnReceived` and `Quit` drive. */
  datatype Countdown = Countdown(waitCount: int, exited: bool)

  function QuoteTrimmed(arg: string): string
  {
    Sequences.Trim(arg, {Quote})
  }

  /** The first character of `text` that is not whitespace, if any. */
  function FirstSignificant(text: string): Option<char>
    decreases |text|
  {
    if text == [] then None
    else if text[0] in WhiteSpace then FirstSignificant(text[1..])
    else Some(text[0])
  }

  /** The test for structured arguments: the first non-whitespace character is `{`. */
  predicate LooksLikeJson(text: string)
  {
    FirstSignificant(text) == Some('{')
  }

  lemma {:induction false} FirstSignificantAfterLeading(text: string)
    ensures var a := Sequences.LeadingCount(text, WhiteSpace);
      FirstSignificant(text) == if a < |text| then Some(text[a]) else None
    decreases |text|
  {
    if text != [] && text[0] in WhiteSpace {
      FirstSignificantAfterLeading(text[1..]);
    }
  }

  /** `LooksLikeJson` is the source's test: the whitespace-trimmed text starts with `{`. */
  lemma LooksLikeJsonIsTrimStartsWith(text: string)
    ensures LooksLikeJson(text) <==> var t := Sequences.Trim(text, WhiteSpace); |t| > 0 && t[0] == '{'
  {
    FirstSignificantAfterLeading(text);
  }

  /**
   * One element of `ConvertSendArguments`: the argument without surrounding
   * single quotes, decoded as JSON when it looks like JSON and kept as that
   * text otherwise.
   */
  function ConvertArgument(arg: string, library: JsonLibrary): (r: Result<SendArgument, Exception>)
    ensures r.Success? && r.value.Literal? ==>
      !LooksLikeJson(r.value.text) && r.value.text == QuoteTrimmed(arg)
      && (r.value.text != [] ==> r.value.text[0] != Quote && r.value.text[|r.value.text| - 1] != Quote)
    ensures r.Success? ==> r.value.Literal? || r.value.Structured?
    ensures r.Failure? || r.value.Structured? <==> LooksLikeJson(QuoteTrimmed(arg))
    ensures r.Failure? <==> LooksLikeJson(QuoteTrimmed(arg)) && Deserialize(QuoteTrimmed(arg), library).Failure?
    ensures r.Success? && r.value.Structured? ==> Deserialize(QuoteTrimmed(arg), library) == Success(r.value.value)
    ensures r.Failure? ==> r.error == InvalidJson(Deserialize(QuoteTrimmed(arg), library).error)
  {
    var text := QuoteTrimmed(arg);
    if LooksLikeJson(text) then
      match Deserialize(text, library)
      case Success(v) => Success(Structured(v))
      case Failure(e) => Failure(InvalidJson(e))
    else Success(Literal(text))
  }

  /** How `OnReceived` writes the argument labelled `tag`. */
  function Display(tag: string, value: Json): Shown
  {
    match value
    case JString(text) => Quoted(tag, text)
    case _ => Raw(tag, value)
  }

  /** What one reception does to the counter: armed, it counts down and quits on reaching 0. */
  function Reception(c: Countdown): Countdown
  {
    if c.waitCount > 0 then Countdown(c.waitCount - 1, c.exited || c.waitCount - 1 == 0) else c
  }

  function Receptions(c: Countdown, n: nat): Countdown
  {
    if n == 0 then c else Reception(Receptions(c, n - 1))
  }

  /** Armed with k, the session is still running after fewer than k receptions and has quit after exactly k. */
  lemma {:induction false} CountdownAfter(k: int, n: nat)
    requires 0 < k && n <= k
    ensures Receptions(Countdown(k, false), n) == Countdown(k - n, n == k)
  {
    if n > 0 {
      CountdownAfter(k, n - 1);
    }
  }

  /** Quit-after-count: with the counter armed at k, exactly k receptions end the session. */
  lemma QuitAfterCount(k: int)
    requires k > 0
    ensures forall n: nat :: n < k ==> !Receptions(Countdown(k, false), n).exited
    ensures Receptions(Countdown(k, false), k).exited
  {
    forall n: nat | n < k ensures !Receptions(Countdown(k, false), n).exited {
      CountdownAfter(k, n);
    }
    CountdownAfter(k, k);
  }

  /** A counter that is not armed (0 or negative) is left alone by a reception. */
  lemma UnarmedCounterUnchanged(c: Countdown)
    requires c.waitCount <= 0
    ensures Reception(c) == c
  {
  }

  /**
   * The subscription table is consistent with the registrations: every entry
   * names a registration for its own key, only registered handles are
   * disposed, and every registration not yet
   * disposed is the one its name's entry holds.
   */
  predicate RegistryValid(entries: map<string, nat>, disposed: set<nat>, registrations: seq<Registration>)
  {
    && (forall h :: h in disposed ==> h < |registrations|)
    && (forall name :: name in entries ==> entries[name] < |registrations| && registrations[entries[name]].name == name)
    && (forall h :: 0 <= h < |registrations| && h !in disposed ==>
          registrations[h].name in entries && entries[registrations[h].name] == h)
  }

  /** The handlers that would still be called for an invocation of `name`. */
  function Live(disposed: set<nat>, registrations: seq<Registration>, name: string): set<nat>
  {
    set h | 0 <= h < |registrations| && h !in disposed && registrations[h].name == name
  }

  /** Replace, not stack: at most one live handler per name, the one in the table. */
  lemma AtMostOneLive(entries: map<string, nat>, disposed: set<nat>, registrations: seq<Registration>, name: string)
    requires RegistryValid(entries, disposed, registrations)
    ensures Live(disposed, registrations, name) ==
      if name in entries && entries[name] !in disposed then {entries[name]} else {}
  {
  }

  class SignalChopper {
    var listeningEntries: map<string, nat>
    var disposed: set<nat>
    var registrations: seq<Registration>
    var connection: Option<ConnectionState>
    var WaitCount: int
    /** Set by `Environment.Exit(0)`. */
    var exited: bool

    ghost predicate Valid()
      reads this
    {
      RegistryValid(listeningEntries, disposed, registrations)
    }

    constructor()
      ensures Valid()
      ensures listeningEntries == map[] && disposed == {} && registrations == []
      ensures connection == None && WaitCount == 0 && !exited
    {
      listeningEntries, disposed, registrations := map[], {}, [];
      connection, WaitCount, exited := None, 0, false;
    }

    /** True exactly when a connection exists and it is connected. */
    method CheckConnection() returns (connected: bool)
      ensures connected <==> connection == Some(Connected)
    {
      connected := connection.Some? && connection.value == Connected;
    }

    /**
     * `Connect`: a server string the builder rejects throws before the
     * assignment and leaves the old connection; otherwise the new connection
     * is stored before it is started, so a start that fails leaves a
     * disconnected connection behind.
     */
    method Connect(attempt: ConnectAttempt)
      modifies this`connection
      ensures attempt.BuildRejected? ==> connection == old(connection)
      ensures !attempt.BuildRejected? ==> connection == Some(if attempt.Started? then Connected else Disconnected)
    {
      if attempt.BuildRejected? {
        return;
      }
      connection := Some(Disconnected);
      if attempt.Started? {
        connection := Some(Connected);
      }
    }

    /** `Quit(n)` stores n and ends the process exactly when n is 0. */
    method Quit(newWaitCount: int)
      modifies this`WaitCount, this`exited
      ensures WaitCount == newWaitCount
      ensures exited == (old(exited) || newWaitCount == 0)
    {
      WaitCount := newWaitCount;
      if newWaitCount == 0 {
        exited := true;
      }
    }

    /**
     * `ConvertSendArguments`: one element per argument, element i the
     * conversion of argument i; the first argument whose JSON does not decode
     * aborts the conversion with that error.
     */
    static method ConvertSendArguments(args: seq<string>, library: JsonLibrary)
      returns (r: Result<array<SendArgument>, Exception>)
      ensures r.Success? ==>
        && r.value.Length == |args|
        && forall i :: 0 <= i < |args| ==> ConvertArgument(args[i], library) == Success(r.value[i])
      ensures r.Failure? ==>
        exists i :: && 0 <= i < |args|
                    && ConvertArgument(args[i], library) == Failure(r.error)
                    && forall j :: 0 <= j < i ==> ConvertArgument(args[j], library).Success?
    {
      var result := new SendArgument[|args|](_ => Literal([]));
      for i := 0 to |args|
        invariant forall j :: 0 <= j < i ==> ConvertArgument(args[j], library) == Success(result[j])
      {
        var converted := ConvertArgument(args[i], library);
        if converted.Failure? {
          return Failure(converted.error);
        }
        result[i] := converted.value;
      }
      return Success(result);
    }

    /**
     * `Send`: nothing is sent unless connected; otherwise the converted
     * arguments go out, or the first argument that fails to convert aborts.
     */
    method Send(target: string, args: seq<string>, library: JsonLibrary) returns (outcome: SendOutcome)
      ensures connection != Some(Connected) <==> outcome == NotConnected
      ensures outcome.Sent? ==>
        && outcome.call.target == target
        && |outcome.call.arguments| == |args|
        && forall i :: 0 <= i < |args| ==> ConvertArgument(args[i], library) == Success(outcome.call.arguments[i])
      ensures outcome.ConversionFailed? ==>
        exists i :: 0 <= i < |args| && ConvertArgument(args[i], library) == Failure(outcome.error)
                    && forall j :: 0 <= j < i ==> ConvertArgument(args[j], library).Success?
    {
      var connected := CheckConnection();
      if !connected {
        return NotConnected;
      }
      var converted := ConvertSendArguments(args, library);
      if converted.Failure? {
        return ConversionFailed(converted.error);
      }
      outcome := Sent(Call(target, converted.value[..]));
    }

    /**
     * `Invoke`: null unless connected; otherwise the converted arguments go
     * out and the server's completion, a value or an error, comes back, or
     * the first argument that fails to convert aborts.
     */
    method Invoke(target: string, args: seq<string>, library: JsonLibrary, reply: Result<Option<Json>, string>)
      returns (outcome: InvokeOutcome)
      ensures connection != Some(Connected) <==> outcome == NoResult
      ensures outcome.Invoked? ==>
        && outcome.reply == reply
        && outcome.call.target == target
        && |outcome.call.arguments| == |args|
        && forall i :: 0 <= i < |args| ==> ConvertArgument(args[i], library) == Success(outcome.call.arguments[i])
      ensures outcome.InvokeFailed? ==>
        exists i :: 0 <= i < |args| && ConvertArgument(args[i], library) == Failure(outcome.error)
                    && forall j :: 0 <= j < i ==> ConvertArgument(args[j], library).Success?
    {
      var connected := CheckConnection();
      if !connected {
        return NoResult;
      }
      var converted := ConvertSendArguments(args, library);
      if converted.Failure? {
        return InvokeFailed(converted.error);
      }
      outcome := Invoked(Call(target, converted.value[..]), reply);
    }

    /**
     * `StopListen`: disposes the handle stored for the name, if any, and
     * leaves the table itself as it was.
     */
    method StopListen(splitCommand: seq<string>) returns (r: Outcome<Exception>)
      requires Valid()
      modifies this`disposed
      ensures Valid()
      ensures |splitCommand| == 0 ==> r == Fail(IndexOutOfRange) && disposed == old(disposed)
      ensures |splitCommand| > 0 ==>
        && r == Pass
        && disposed == old(disposed) +
             (if splitCommand[0] in listeningEntries then {listeningEntries[splitCommand[0]]} else {})
      ensures |splitCommand| > 0 ==> Live(disposed, registrations, splitCommand[0]) == {}
    {
      if |splitCommand| == 0 {
        return Fail(IndexOutOfRange);
      }
      var name := splitCommand[0];
      if name in listeningEntries {
        disposed := disposed + {listeningEntries[name]};
      }
      r := Pass;
      AtMostOneLive(listeningEntries, disposed, registrations, name);
    }

    /**
     * `Listen([name, labels...])`: when connected, the previous handler for
     * the name is disposed and a new one expecting one argument per label
     * takes its place in the table; other names are untouched.
     */
    method Listen(splitCommand: seq<string>) returns (r: Outcome<Exception>)
      requires Valid()
      modifies this`listeningEntries, this`disposed, this`registrations
      ensures Valid()
      ensures connection != Some(Connected) ==>
        r == Pass && unchanged(this)
      ensures connection == Some(Connected) && |splitCommand| == 0 ==>
        r == Fail(IndexOutOfRange) && unchanged(this)
      ensures connection == Some(Connected) && |splitCommand| > 0 ==>
        var name := splitCommand[0];
        && r == Pass
        && registrations == old(registrations) + [Registration(name, splitCommand[1..])]
        && listeningEntries == old(listeningEntries)[name := |old(registrations)|]
        && disposed == old(disposed) + (if name in old(listeningEntries) then {old(listeningEntries)[name]} else {})
        && Live(disposed, registrations, name) == {|old(registrations)|}
    {
      var connected := CheckConnection();
      if !connected {
        return Pass;
      }
      r := StopListen(splitCommand);
      if r.Fail? {
        return;
      }
      var name := splitCommand[0];
      var handle := |registrations|;
      registrations := registrations + [Registration(name, splitCommand[1..])];
      listeningEntries := listeningEntries[name := handle];
      AtMostOneLive(listeningEntries, disposed, registrations, name);
    }

    /**
     * `OnReceived`, the handler `Listen` registers: each label is paired with
     * the argument at its position, then an armed counter counts down and
     * quits on reaching 0.
     */
    method OnReceived(splitCommand: seq<string>, data: seq<Json>) returns (shown: seq<Shown>)
      requires |splitCommand| >= 1 && |data| == |splitCommand| - 1
      modifies this`WaitCount, this`exited
      ensures |shown| == |data|
      ensures forall i :: 0 <= i < |data| ==> shown[i] == Display(splitCommand[i + 1], data[i])
      ensures Countdown(WaitCount, exited) == Reception(Countdown(old(WaitCount), old(exited)))
    {
      var labels := splitCommand[1..];
      shown := [];
      for i := 0 to |labels|
        invariant |shown| == i
        invariant forall j :: 0 <= j < i ==> shown[j] == Display(labels[j], data[j])
      {
        shown := shown + [Display(labels[i], data[i])];
      }
      if WaitCount > 0 {
        WaitCount := WaitCount - 1;
        Quit(WaitCount);
      }
    }
  }
}
