/**
 * The older entry point, SignalChop/Program.cs: its own tokenizer, command
 * dispatch and read loop, and its own copies of `Quit`, `Listen`,
 * `OnReceived` and `ConvertSendArguments`.  The session types and the
 * subscription-table invariant are shared with the `Session` module.
 */
module LegacyProgram {
  import opened Wrappers
  import opened Json
  import opened DynamicJson
  import opened Session
  import Sequences

  /** The tokenizer after one character: the character it leaves in the buffer and its two flags. */
  datatype Step = Step(c: char, inQuote: bool, lastSpace: bool)

  /**
   * One pass of the tokenizer loop over one character: a quote toggles the
   * quoted state, and an unquoted space that does not follow a space becomes
   * a line break (the split point).
   */
  function Advance(c: char, inQuote: bool, lastSpace: bool): Step
  {
    var q := if c == Quote then !inQuote else inQuote;
    var d := if !q && c == ' ' && !lastSpace then '\n' else c;
    Step(d, q, d == '\n' || d == ' ')
  }

  /** The buffer the tokenizer loop leaves, from the given state on. */
  function Separate(line: string, inQuote: bool, lastSpace: bool): (r: string)
    ensures |r| == |line|
  {
    if line == [] then []
    else
      var step := Advance(line[0], inQuote, lastSpace);
      [step.c] + Separate(line[1..], step.inQuote, step.lastSpace)
  }

  /** The tokenizer's buffer from position i on: one character of `Advance`, then the rest. */
  lemma SeparateStep(line: string, i: nat, inQuote: bool, lastSpace: bool)
    requires i < |line|
    ensures var step := Advance(line[i], inQuote, lastSpace);
      Separate(line[i..], inQuote, lastSpace) == [step.c] + Separate(line[i + 1..], step.inQuote, step.lastSpace)
  {
    assert line[i..][1..] == line[i + 1..];
  }

  /** Whether the tokenizer is inside quotes after reading `s`, having started in state `q`. */
  function InQuote(q: bool, s: string): bool
    decreases s
  {
    if s == [] then q else InQuote(if s[0] == Quote then !q else q, s[1..])
  }

  /** The quoted state is the parity of the number of quotes read so far. */
  lemma {:induction false} InQuoteParity(q: bool, s: string)
    decreases s
    ensures InQuote(q, s) == (q != (multiset(s)[Quote] % 2 == 1))
  {
    if s != [] {
      InQuoteParity(if s[0] == Quote then !q else q, s[1..]);
      assert s == [s[0]] + s[1..];
      assert multiset(s) == multiset([s[0]]) + multiset(s[1..]);
    }
  }

  /** Whether the character before position i counts as a space for the tokenizer. */
  predicate AfterSpace(line: string, i: nat, lastSpace: bool)
    requires i < |line|
  {
    if i == 0 then lastSpace else line[i - 1] == ' ' || line[i - 1] == '\n'
  }

  lemma {:induction false} SeparateAt(line: string, q: bool, l: bool, i: nat)
    requires i < |line|
    ensures Separate(line, q, l)[i] ==
      if line[i] == ' ' && !InQuote(q, line[..i + 1]) && !AfterSpace(line, i, l) then '\n' else line[i]
  {
    var step := Advance(line[0], q, l);
    var prefix := line[..i + 1];
    assert prefix[0] == line[0] && prefix[1..] == line[1..][..i];
    assert InQuote(q, prefix) == InQuote(step.inQuote, line[1..][..i]);
    if i > 0 {
      SeparateAt(line[1..], step.inQuote, step.lastSpace, i - 1);
      assert line[1..][i - 1] == line[i];
      assert AfterSpace(line[1..], i - 1, step.lastSpace) == AfterSpace(line, i, l);
    }
  }

  /**
   * The separator rule of `ParseMultiSpacedArguments`: position i becomes a
   * split point exactly when it holds a space, the quotes up to and including
   * it are balanced, and the character before it is neither a space nor a
   * line break.
   */
  lemma SeparatorRule(line: string, i: nat)
    requires i < |line|
    ensures Separate(line, false, false)[i] ==
      if line[i] == ' ' && multiset(line[..i + 1])[Quote] % 2 == 0 && !AfterSpace(line, i, false) then '\n'
      else line[i]
  {
    SeparateAt(line, false, false, i);
    InQuoteParity(false, line[..i + 1]);
  }

  /** Only spaces are rewritten, and only into line breaks. */
  lemma OnlySpacesRewritten(line: string)
    ensures forall i :: 0 <= i < |line| ==>
      Separate(line, false, false)[i] == line[i] || (line[i] == ' ' && Separate(line, false, false)[i] == '\n')
  {
    forall i | 0 <= i < |line|
      ensures Separate(line, false, false)[i] == line[i] || (line[i] == ' ' && Separate(line, false, false)[i] == '\n')
    {
      SeparateAt(line, false, false, i);
    }
  }

  /**
   * The tokens of a line without line breaks, joined by single spaces, give
   * the line back: the tokenizer only cuts, it never drops a character.
   */
  lemma TokensRejoin(line: string)
    requires '\n' !in line
    ensures Sequences.Join(Sequences.Split(Separate(line, false, false), '\n'), ' ') == line
  {
    var s := Separate(line, false, false);
    Sequences.JoinSplit(s, '\n', ' ');
    OnlySpacesRewritten(line);
    var r := Sequences.Replace(s, '\n', ' ');
    forall i | 0 <= i < |line| ensures r[i] == line[i] {
      assert line[i] != '\n';
    }
  }

  /** A line without quotes and with single spaces splits at every space. */
  lemma PlainWordsSplitAtSpaces(line: string)
    requires Quote !in line && '\n' !in line
    requires forall i :: 0 < i < |line| && line[i] == ' ' ==> line[i - 1] != ' '
    ensures Separate(line, false, false) == Sequences.Replace(line, ' ', '\n')
  {
    var s := Separate(line, false, false);
    forall i | 0 <= i < |line| ensures s[i] == Sequences.Replace(line, ' ', '\n')[i] {
      SeparatorRule(line, i);
      assert Quote !in line[..i + 1];
    }
  }

  /** A run of spaces splits once; the remaining spaces lead the next token. */
  lemma RunOfSpacesSplitsOnce()
    ensures Separate("a  b", false, false) == "a\n b"
    ensures Sequences.Split("a\n b", '\n') == ["a", " b"]
  {
    assert Sequences.IndexOf("a\n b", '\n') == Some(1);
    assert "a\n b"[2..] == " b" && '\n' !in " b";
  }

  /** A space between single quotes does not split, and the quotes stay in the token. */
  lemma QuotedSpaceKept()
    ensures Separate("'a b'", false, false) == "'a b'"
    ensures Sequences.Split("'a b'", '\n') == ["'a b'"]
  {
    assert Separate("b'", true, true) == "b'";
    assert Separate(" b'", true, false) == " b'";
    assert '\n' !in "'a b'";
  }

  /** The as-written auto-quit step: `Quit(this.waitCount--)` hands `Quit` the value before the decrement. */
  function LegacyReception(c: Countdown): Countdown
  {
    if c.waitCount > 0 then
      var argument := c.waitCount;
      Countdown(argument, c.exited || argument == 0)
    else c
  }

  function LegacyReceptions(c: Countdown, n: nat): Countdown
  {
    if n == 0 then c else LegacyReception(LegacyReceptions(c, n - 1))
  }

  /** As written, no number of receptions ends the session: the counter is restored every time. */
  lemma {:induction false} LegacyNeverAutoQuits(k: int, n: nat)
    ensures LegacyReceptions(Countdown(k, false), n) == Countdown(k, false)
  {
    if n > 0 {
      LegacyNeverAutoQuits(k, n - 1);
    }
  }

  /** With the counter armed at k, the as-written handler still runs after k receptions; the corrected one has quit. */
  lemma AutoQuitDiscrepancy(k: int)
    requires k > 0
    ensures !LegacyReceptions(Countdown(k, false), k).exited
    ensures Receptions(Countdown(k, false), k).exited
  {
    LegacyNeverAutoQuits(k, k);
    QuitAfterCount(k);
  }

  /**
   * Element i of the as-written `ConvertSendArguments`: JSON arguments decode
   * as in the session, but any other argument is replaced by its own
   * character at position i, which fails when the argument is too short.
   */
  function LegacyConvertArgument(arg: string, i: nat, library: JsonLibrary): (r: Result<SendArgument, Exception>)
    ensures LooksLikeJson(QuoteTrimmed(arg)) ==> r == ConvertArgument(arg, library)
    ensures !LooksLikeJson(QuoteTrimmed(arg)) ==>
      r == if i < |QuoteTrimmed(arg)| then Success(Character(QuoteTrimmed(arg)[i])) else Failure(IndexOutOfRange)
    ensures r.Success? ==> !r.value.Literal?
  {
    var text := QuoteTrimmed(arg);
    if LooksLikeJson(text) then
      match Deserialize(text, library)
      case Success(v) => Success(Structured(v))
      case Failure(e) => Failure(InvalidJson(e))
    else if i < |text| then Success(Character(text[i]))
    else Failure(IndexOutOfRange)
  }

  /** An argument that neither starts nor ends with a quote is passed on unchanged by the quote trim. */
  lemma QuoteTrimKeeps(s: string)
    requires s != [] && s[0] != Quote && s[|s| - 1] != Quote
    ensures QuoteTrimmed(s) == s
  {
    assert Sequences.LeadingCount(s, {Quote}) == 0;
    assert Sequences.TrailingCount(s, {Quote}) == 0;
  }

  /**
   * `Send x abc` sends the character 'a' as written and the string "abc" as
   * corrected.
   */
  lemma ShortConversionDiscrepancy(library: JsonLibrary)
    ensures LegacyConvertArgument("abc", 0, library) == Success(Character('a'))
    ensures ConvertArgument("abc", library) == Success(Literal("abc"))
  {
    QuoteTrimKeeps("abc");
  }

  /** `Send x a b` fails on its second argument as written, and sends "b" as corrected. */
  lemma OutOfRangeConversionDiscrepancy(library: JsonLibrary)
    ensures LegacyConvertArgument("b", 1, library) == Failure(IndexOutOfRange)
    ensures ConvertArgument("b", library) == Success(Literal("b"))
  {
    QuoteTrimKeeps("b");
  }

  /** What one command line did. */
  datatype CommandOutcome =
    | Completed
    | Delivered(call: Call)
    | Threw(error: Exception)    // raised to the read loop
    | Faulted(error: Exception)  // raised inside `async void Send`, past the read loop's handler

  /** How `Run` ends. */
  datatype RunOutcome = ExitCode(code: int) | Terminated(error: Exception)

  /**
   * The outside world a command meets: the JSON library, `int.Parse`, and
   * whether starting a connection to a given server succeeds.
   */
  datatype Environment = Environment(library: JsonLibrary, parseInt: string -> Option<int32>, connect: string -> ConnectAttempt)

  class Program {
    var connection: Option<ConnectionState>
    var exit: bool
    var waitCount: int
    var listeningEntries: map<string, nat>
    var disposed: set<nat>
    var registrations: seq<Registration>

    ghost predicate Valid()
      reads this
    {
      RegistryValid(listeningEntries, disposed, registrations)
    }

    constructor()
      ensures Valid()
      ensures connection == None && !exit && waitCount == 0
      ensures listeningEntries == map[] && disposed == {} && registrations == []
    {
      connection, exit, waitCount := None, false, 0;
      listeningEntries, disposed, registrations := map[], {}, [];
    }

    /**
     * `ParseMultiSpacedArguments`: the line's characters rewritten in place
     * by the separator rule, then split at the line breaks.
     */
    static method ParseMultiSpacedArguments(line: string) returns (tokens: seq<string>)
      ensures tokens == Sequences.Split(Separate(line, false, false), '\n')
      ensures |tokens| >= 1
    {
      var chars := new char[|line|](i requires 0 <= i < |line| => line[i]);
      var isLastCharSpace := false;
      var inQuote := false;
      ghost var separated := Separate(line, false, false);
      for index := 0 to chars.Length
        invariant forall j :: index <= j < chars.Length ==> chars[j] == line[j]
        invariant forall j :: 0 <= j < index ==> chars[j] == separated[j]
        invariant Separate(line[index..], inQuote, isLastCharSpace) == separated[index..]
      {
        ghost var step := Advance(line[index], inQuote, isLastCharSpace);
        SeparateStep(line, index, inQuote, isLastCharSpace);
        var c := chars[index];
        if c == Quote {
          inQuote := !inQuote;
        }
        if !inQuote && c == ' ' && !isLastCharSpace {
          c := '\n';
          chars[index] := c;
        }
        isLastCharSpace := c == '\n' || c == ' ';
        assert separated[index..][1..] == separated[index + 1..];
      }
      assert chars[..] == separated;
      tokens := Sequences.Split(chars[..], '\n');
    }

    /** `Quit(n)`: stores n, and sets the exit flag exactly when n is 0. */
    method Quit(newWaitCount: int)
      modifies this`waitCount, this`exit
      ensures waitCount == newWaitCount
      ensures exit == (old(exit) || newWaitCount == 0)
    {
      waitCount := newWaitCount;
      if newWaitCount == 0 {
        exit := true;
      }
    }

    /**
     * `Connect`: a server string the builder rejects throws before the
     * assignment, which is only reported, and the old connection stays;
     * otherwise the connection is replaced before it is started, and a
     * failed start is only reported.
     */
    method Connect(attempt: ConnectAttempt)
      modifies this`connection
      ensures attempt.BuildRejected? ==> connection == old(connection)
      ensures !attempt.BuildRejected? ==> connection == Some(if attempt.Started? then Connected else Disconnected)
    {
      if attempt.BuildRejected? {
        return;
      }
      connection := Some(Disconnected);
      if attempt.Started? {
        connection := Some(Connected);
      }
    }

    /** `StopListen`: disposes the stored handle for the name, if any. */
    method StopListen(splitCommand: seq<string>) returns (r: Outcome<Exception>)
      requires Valid()
      modifies this`disposed
      ensures Valid()
      ensures |splitCommand| == 0 ==> r == Fail(IndexOutOfRange) && disposed == old(disposed)
      ensures |splitCommand| > 0 ==>
        && r == Pass
        && disposed == old(disposed) +
             (if splitCommand[0] in listeningEntries then {listeningEntries[splitCommand[0]]} else {})
        && Live(disposed, registrations, splitCommand[0]) == {}
    {
      if |splitCommand| == 0 {
        return Fail(IndexOutOfRange);
      }
      var name := splitCommand[0];
      if name in listeningEntries {
        disposed := disposed + {listeningEntries[name]};
      }
      r := Pass;
      AtMostOneLive(listeningEntries, disposed, registrations, name);
    }

    /**
     * `Listen`: disposes the old handler first, then registers on whatever
     * connection object exists, connected or not; with no connection object
     * at all the registration throws after the old handler is gone.
     */
    method Listen(splitCommand: seq<string>) returns (r: Outcome<Exception>)
      requires Valid()
      modifies this`listeningEntries, this`disposed, this`registrations
      ensures Valid()
      ensures |splitCommand| == 0 ==> r == Fail(IndexOutOfRange) && unchanged(this)
      ensures |splitCommand| > 0 && connection.None? ==>
        var name := splitCommand[0];
        && r == Fail(NoConnection)
        && registrations == old(registrations) && listeningEntries == old(listeningEntries)
        && disposed == old(disposed) + (if name in old(listeningEntries) then {old(listeningEntries)[name]} else {})
      ensures |splitCommand| > 0 && connection.Some? ==>
        var name := splitCommand[0];
        && r == Pass
        && registrations == old(registrations) + [Registration(name, splitCommand[1..])]
        && listeningEntries == old(listeningEntries)[name := |old(registrations)|]
        && disposed == old(disposed) + (if name in old(listeningEntries) then {old(listeningEntries)[name]} else {})
        && Live(disposed, registrations, name) == {|old(registrations)|}
    {
      r := StopListen(splitCommand);
      if r.Fail? {
        return;
      }
      if connection.None? {
        return Fail(NoConnection);
      }
      var name := splitCommand[0];
      var handle := |registrations|;
      registrations := registrations + [Registration(name, splitCommand[1..])];
      listeningEntries := listeningEntries[name := handle];
      AtMostOneLive(listeningEntries, disposed, registrations, name);
    }

    /**
     * `OnReceived` as written: every argument is written through its
     * `ToString` (strings unquoted), and the counter is handed to `Quit`
     * before its decrement, so counter and exit flag come out as they went in.
     */
    method OnReceived(splitCommand: seq<string>, data: seq<Json>) returns (shown: seq<Shown>)
      requires |splitCommand| >= 1 && |data| == |splitCommand| - 1
      modifies this`waitCount, this`exit
      ensures |shown| == |data|
      ensures forall i :: 0 <= i < |data| ==> shown[i] == Raw(splitCommand[i + 1], data[i])
      ensures Countdown(waitCount, exit) == LegacyReception(Countdown(old(waitCount), old(exit)))
      ensures waitCount == old(waitCount) && exit == old(exit)
    {
      var labels := splitCommand[1..];
      shown := [];
      for i := 0 to |labels|
        invariant |shown| == i
        invariant forall j :: 0 <= j < i ==> shown[j] == Raw(labels[j], data[j])
      {
        shown := shown + [Raw(labels[i], data[i])];
      }
      if waitCount > 0 {
        var argument := waitCount;
        waitCount := waitCount - 1;
        Quit(argument);
      }
    }

    /** `ConvertSendArguments` as written: element i is `LegacyConvertArgument(args[i], i)`. */
    static method ConvertSendArguments(args: seq<string>, library: JsonLibrary)
      returns (r: Result<array<SendArgument>, Exception>)
      ensures r.Success? ==>
        && r.value.Length == |args|
        && forall i :: 0 <= i < |args| ==> LegacyConvertArgument(args[i], i, library) == Success(r.value[i])
      ensures r.Failure? ==>
        exists i :: && 0 <= i < |args|
                    && LegacyConvertArgument(args[i], i, library) == Failure(r.error)
                    && forall j :: 0 <= j < i ==> LegacyConvertArgument(args[j], j, library).Success?
    {
      var result := new SendArgument[|args|](_ => Literal([]));
      for i := 0 to |args|
        invariant forall j :: 0 <= j < i ==> LegacyConvertArgument(args[j], j, library) == Success(result[j])
      {
        var converted := LegacyConvertArgument(args[i], i, library);
        if converted.Failure? {
          return Failure(converted.error);
        }
        result[i] := converted.value;
      }
      return Success(result);
    }

    /**
     * `Send`: the arguments are converted before the missing connection is
     * noticed; an inactive connection refuses the invocation.  Every failure
     * here is a fault of an `async void` method.
     */
    method Send(target: string, args: seq<string>, library: JsonLibrary) returns (outcome: CommandOutcome)
      ensures outcome.Delivered? || outcome.Faulted?
      ensures outcome.Delivered? <==>
        && connection == Some(Connected)
        && forall i :: 0 <= i < |args| ==> LegacyConvertArgument(args[i], i, library).Success?
      ensures outcome.Delivered? ==>
        && outcome.call.target == target
        && |outcome.call.arguments| == |args|
        && forall i :: 0 <= i < |args| ==> LegacyConvertArgument(args[i], i, library) == Success(outcome.call.arguments[i])
      ensures outcome == Faulted(NoConnection) <==>
        connection.None? && forall i :: 0 <= i < |args| ==> LegacyConvertArgument(args[i], i, library).Success?
      ensures
        && (forall i :: 0 <= i < |args| ==> LegacyConvertArgument(args[i], i, library).Success?)
        && connection.Some? && connection.value != Connected
        ==> outcome == Faulted(InvalidOperation)
      ensures !(forall i :: 0 <= i < |args| ==> LegacyConvertArgument(args[i], i, library).Success?) ==>
        exists i :: 0 <= i < |args| && LegacyConvertArgument(args[i], i, library) == Failure(outcome.error)
                    && forall j :: 0 <= j < i ==> LegacyConvertArgument(args[j], j, library).Success?
    {
      var converted := ConvertSendArguments(args, library);
      if converted.Failure? {
        return Faulted(converted.error);
      }
      if connection.None? {
        return Faulted(NoConnection);
      }
      if connection.value != Connected {
        return Faulted(InvalidOperation);
      }
      outcome := Delivered(Call(target, converted.value[..]));
    }

    /**
     * `RunCommand`: splits the line and dispatches on its first token.  The
     * connection check before `StopListen`, `Listen` and `Send` only reports.
     */
    method RunCommand(line: string, env: Environment) returns (outcome: CommandOutcome)
      requires Valid()
      modifies this
      ensures Valid()
      ensures var tokens := Sequences.Split(Separate(line, false, false), '\n');
        && (tokens[0] !in {"StopListen", "Listen", "Connect", "Send", "Quit"} ==> outcome == Completed && unchanged(this))
        && (tokens[0] == "Quit" ==>
              && connection == old(connection) && listeningEntries == old(listeningEntries)
              && disposed == old(disposed) && registrations == old(registrations))
        && (tokens[0] == "Quit" && |tokens| == 1 ==> outcome == Completed && exit && waitCount == 0)
        && (tokens[0] == "Quit" && |tokens| > 1 && env.parseInt(tokens[1]).None? ==> outcome == Threw(InvalidInteger) && unchanged(this))
        && (tokens[0] == "Quit" && |tokens| > 1 && env.parseInt(tokens[1]).Some? ==>
              outcome == Completed && waitCount == env.parseInt(tokens[1]).value
              && exit == (old(exit) || waitCount == 0))
        && (tokens[0] in {"Connect", "StopListen", "Listen"} && |tokens| == 1 ==> outcome == Threw(IndexOutOfRange) && unchanged(this))
        && (tokens[0] in {"StopListen", "Listen"} ==>
              connection == old(connection) && waitCount == old(waitCount) && exit == old(exit))
        && (tokens[0] == "StopListen" ==>
              listeningEntries == old(listeningEntries) && registrations == old(registrations))
        && (tokens[0] == "Listen" && |tokens| > 1 && old(connection).None? ==>
              listeningEntries == old(listeningEntries) && registrations == old(registrations))
        && (tokens[0] == "Connect" ==>
              && listeningEntries == old(listeningEntries) && disposed == old(disposed)
              && registrations == old(registrations) && waitCount == old(waitCount) && exit == old(exit))
        && (tokens[0] == "Connect" && |tokens| > 1 ==>
              && outcome == Completed
              && connection == match env.connect(tokens[1])
                               case BuildRejected => old(connection)
                               case StartFailed => Some(Disconnected)
                               case Started => Some(Connected))
        && (tokens[0] == "StopListen" && |tokens| > 1 ==>
              && outcome == Completed
              && disposed == old(disposed) +
                   (if tokens[1] in listeningEntries then {listeningEntries[tokens[1]]} else {})
              && Live(disposed, registrations, tokens[1]) == {})
        && (tokens[0] == "Listen" && |tokens| > 1 ==>
              && outcome == (if old(connection).None? then Threw(NoConnection) else Completed)
              && disposed == old(disposed) +
                   (if tokens[1] in old(listeningEntries) then {old(listeningEntries)[tokens[1]]} else {})
              && (old(connection).Some? ==>
                    && registrations == old(registrations) + [Registration(tokens[1], tokens[2..])]
                    && listeningEntries == old(listeningEntries)[tokens[1] := |old(registrations)|]
                    && Live(disposed, registrations, tokens[1]) == {|old(registrations)|}))
        && (tokens[0] == "Send" && |tokens| == 1 ==> outcome == Completed && unchanged(this))
        && (tokens[0] == "Send" && |tokens| > 1 ==> (outcome.Delivered? || outcome.Faulted?) && unchanged(this))
        && (tokens[0] == "Send" && outcome.Delivered? ==> outcome.call.target == tokens[1])
    {
      var splitCommand := ParseMultiSpacedArguments(line);
      var command := splitCommand[0];
      if command == "StopListen" {
        var r := StopListen(splitCommand[1..]);
        outcome := if r.Fail? then Threw(r.error) else Completed;
      } else if command == "Listen" {
        var r := Listen(splitCommand[1..]);
        outcome := if r.Fail? then Threw(r.error) else Completed;
      } else if command == "Connect" {
        if |splitCommand| < 2 {
          return Threw(IndexOutOfRange);
        }
        Connect(env.connect(splitCommand[1]));
        outcome := Completed;
      } else if command == "Send" {
        if |splitCommand| < 2 {
          return Completed;
        }
        outcome := Send(splitCommand[1], splitCommand[2..], env.library);
      } else if command == "Quit" {
        if |splitCommand| > 1 {
          var count := env.parseInt(splitCommand[1]);
          if count.None? {
            return Threw(InvalidInteger);
          }
          Quit(count.value);
        } else {
          Quit(0);
        }
        outcome := Completed;
      } else {
        outcome := Completed;
      }
    }

    /**
     * `Run`: arms the counter, runs every line of the command file, then
     * reads console lines until the exit flag is set.  The console running
     * dry gives a null line, whose tokenizing throws; any thrown exception
     * ends the run with code 1, and a fault in `Send` ends the process.
     */
    method Run(commandFile: seq<string>, console: seq<string>, exitAfterCount: int, env: Environment)
      returns (outcome: RunOutcome)
      requires Valid()
      modifies this
      ensures Valid()
      ensures outcome == ExitCode(0) ==> exit
      ensures outcome.ExitCode? ==> outcome.code == 0 || outcome.code == 1
    {
      waitCount := exitAfterCount;
      for i := 0 to |commandFile|
        invariant Valid()
      {
        var done := RunCommand(commandFile[i], env);
        if done.Threw? {
          return ExitCode(1);
        }
        if done.Faulted? {
          return Terminated(done.error);
        }
      }
      var next := 0;
      while !exit
        invariant Valid()
        invariant next <= |console|
        decreases |console| - next
      {
        if next == |console| {
          return ExitCode(1);
        }
        var done := RunCommand(console[next], env);
        next := next + 1;
        if done.Threw? {
          return ExitCode(1);
        }
        if done.Faulted? {
          return Terminated(done.error);
        }
      }
      return ExitCode(0);
    }
  }
}
