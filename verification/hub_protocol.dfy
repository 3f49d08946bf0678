/**
 * The catch-all hub protocol of SignalChop/FileName.cs: a decorator over the
 * JSON hub protocol that cuts one 0x1E-terminated record off the input,
 * peeks at it, and reroutes every invocation whose target the binder does
 * not know, or whose argument count does not match the binder's, to the
 * reserved target "$__catchAll" with the whole parsed envelope as the only
 * argument.  Everything else is handed, with the input untouched, to the
 * inner protocol.
 */
module HubProtocol {
  import opened Wrappers
  import opened Json
  import Sequences

  /** ASCII Record Separator, the terminator of every JSON hub protocol record. */
  const RecordSeparator: byte := 0x1E

  /** The reserved target rerouted invocations are delivered to. */
  const CatchAllTarget: string := "$__catchAll"

  /** The numeric `type` of an invocation message. */
  const InvocationMessageType: int := 1

  datatype HubMessage =
    | Invocation(invocationId: Option<string>, target: string, arguments: seq<Json>)
    | StreamItem(itemId: string, item: Json)
    | Completion(completionId: string, result: Option<Json>, error: Option<string>)
    | Ping
    | Close(closeError: Option<string>)

  /**
   * What `IInvocationBinder.GetParameterTypes(target)` does: it throws for a
   * target it does not know, or returns a parameter list, possibly null.
   */
  datatype ParameterTypes = Throws | NullList | Types(count: nat)

  type Binder = string -> ParameterTypes

  datatype TransferFormat = Binary | Text

  /** `TryParseMessage`'s result, its `out` message and the new `ref` input. */
  datatype ParseOutcome = ParseOutcome(parsed: bool, message: Option<HubMessage>, input: seq<byte>)

  /** The inner `JsonHubProtocol`, library code the decorator delegates to. */
  datatype JsonHubProtocol = JsonHubProtocol(
    name: string,
    version: int,
    transferFormat: TransferFormat,
    isVersionSupported: int -> bool,
    getMessageBytes: HubMessage -> seq<byte>,
    writeMessage: (HubMessage, seq<byte>) -> seq<byte>,
    tryParseMessage: (seq<byte>, Binder) -> ParseOutcome)

  /**
   * `TryReadFrame`: on success `payload` is everything before the first
   * record separator and `rest` everything after it; on failure the input is
   * left as it was and the payload is empty.
   */
  method TryReadFrame(input: seq<byte>) returns (found: bool, payload: seq<byte>, rest: seq<byte>)
    ensures found <==> RecordSeparator in input
    ensures found ==> input == payload + [RecordSeparator] + rest && RecordSeparator !in payload
    ensures !found ==> payload == [] && rest == input
  {
    var at := Sequences.IndexOf(input, RecordSeparator);
    if at.None? {
      return false, [], input;
    }
    found, payload, rest := true, input[..at.value], input[at.value + 1..];
    assert input == input[..at.value] + [input[at.value]] + input[at.value + 1..];
  }

  /** The number of arguments an invocation declares: the length of `arguments` if it is an array, else 0. */
  function ArgumentCount(members: seq<Member>): (n: nat)
    ensures GetProperty(members, "arguments").Some? && GetProperty(members, "arguments").value.JArray?
            ==> n == |GetProperty(members, "arguments").value.items|
    ensures !(GetProperty(members, "arguments").Some? && GetProperty(members, "arguments").value.JArray?) ==> n == 0
  {
    match GetProperty(members, "arguments")
    case Some(JArray(items)) => |items|
    case _ => 0
  }

  /** The parameter count the binder expects; `None` when it throws, 0 for a null list. */
  function ExpectedCount(types: ParameterTypes): Option<nat>
  {
    match types
    case Throws => None
    case NullList => Some(0)
    case Types(count) => Some(count)
  }

  /** The invocation id carried over to a rerouted message: present only when it is a string. */
  function InvocationIdOf(members: seq<Member>): Option<string>
  {
    match GetProperty(members, "invocationId")
    case Some(JString(id)) => Some(id)
    case _ => None
  }

  /** The target of an invocation frame: `type` a number reading as the Int32 1 and `target` a string. */
  function InvocationTarget(root: Json, int32: string -> Option<int32>): Option<string>
  {
    match root
    case JObject(members) =>
      (match GetProperty(members, "type")
       case Some(JNumber(literal)) =>
         if int32(literal) == Some(InvocationMessageType as int32) then
           match GetProperty(members, "target")
           case Some(JString(target)) => Some(target)
           case _ => None
         else None
       case _ => None)
    // TryGetProperty throws on anything but an object; the peek catches it.
    case _ => None
  }

  /**
   * The peek of `TryParseMessage` on a parsed frame: the rerouted message,
   * or `None` when the frame goes to the inner parser.
   */
  function Peek(root: Json, binder: Binder, int32: string -> Option<int32>): (r: Option<HubMessage>)
    ensures r.Some? <==>
      InvocationTarget(root, int32).Some? &&
      ExpectedCount(binder(InvocationTarget(root, int32).value)) != Some(ArgumentCount(root.members))
    ensures r.Some? ==>
      r.value == Invocation(InvocationIdOf(root.members), CatchAllTarget, [root])
  {
    match InvocationTarget(root, int32)
    case None => None
    case Some(target) =>
      var argCount := ArgumentCount(root.members);
      match binder(target)
      case Throws => Some(Invocation(InvocationIdOf(root.members), CatchAllTarget, [root]))
      case NullList =>
        if argCount != 0 then Some(Invocation(InvocationIdOf(root.members), CatchAllTarget, [root])) else None
      case Types(expected) =>
        if expected != argCount then Some(Invocation(InvocationIdOf(root.members), CatchAllTarget, [root])) else None
  }

  /** The catch-all protocol: the inner protocol plus the JSON library the peek uses. */
  datatype CatchAllJsonHubProtocol = CatchAllJsonHubProtocol(inner: JsonHubProtocol, library: JsonLibrary)
  {
    function Name(): string { inner.name }

    function Version(): int { inner.version }

    function Format(): TransferFormat { inner.transferFormat }

    function IsVersionSupported(version: int): bool { inner.isVersionSupported(version) }

    function GetMessageBytes(message: HubMessage): seq<byte> { inner.getMessageBytes(message) }

    function WriteMessage(message: HubMessage, output: seq<byte>): seq<byte> { inner.writeMessage(message, output) }

    /** The peek applied to a frame's bytes: a frame that does not parse is never rerouted. */
    function PeekFrame(payload: seq<byte>, binder: Binder): Option<HubMessage>
    {
      match library.parseBytes(payload)
      case None => None
      case Some(root) => Peek(root, binder, library.int32)
    }

    /**
     * `TryParseMessage`: with no complete record nothing is read and the
     * input stays as it was; a rerouted record is consumed, the input
     * advanced past its separator; anything else is the inner parser's
     * result on the original input.
     */
    method TryParseMessage(input: seq<byte>, binder: Binder)
      returns (parsed: bool, message: Option<HubMessage>, rest: seq<byte>)
      ensures RecordSeparator !in input ==> !parsed && message == None && rest == input
      ensures RecordSeparator in input ==>
        var payload := input[..Sequences.IndexOf(input, RecordSeparator).value];
        match PeekFrame(payload, binder)
        case Some(rerouted) =>
          parsed && message == Some(rerouted) && rest == input[|payload| + 1..]
        case None =>
          ParseOutcome(parsed, message, rest) == inner.tryParseMessage(input, binder)
    {
      var original := input;
      var found, payload, advanced := TryReadFrame(input);
      if !found {
        return false, None, original;
      }
      ghost var at := Sequences.IndexOf(input, RecordSeparator).value;
      assert payload == input[..at] && advanced == input[at + 1..] by {
        assert input[..|payload|] == payload;
        assert input[|payload|] == RecordSeparator;
      }
      var peeked := PeekFrame(payload, binder);
      if peeked.Some? {
        return true, peeked, advanced;
      }
      var outcome := inner.tryParseMessage(original, binder);
      parsed, message, rest := outcome.parsed, outcome.message, outcome.input;
    }
  }
  /**
   * The reroute rule over the parsed tree: a frame is rerouted exactly when
   * it is an object whose `type` is a number reading as the Int32 1, whose
   * `target` is a string, and whose target the binder either does not know
   * or expects a different number of arguments for.
   */
  lemma RerouteConditions(root: Json, binder: Binder, int32: string -> Option<int32>)
    ensures Peek(root, binder, int32).Some? <==>
      root.JObject? &&
      (exists literal :: GetProperty(root.members, "type") == Some(JNumber(literal)) && int32(literal) == Some(1)) &&
      (exists target :: GetProperty(root.members, "target") == Some(JString(target)) &&
         (binder(target).Throws? || ExpectedCount(binder(target)).value != ArgumentCount(root.members)))
  {
  }

  /**
   * A rerouted message goes to the catch-all target with the frame as its
   * only argument, so the original target and arguments stay readable; its
   * invocation id is the frame's when that is a string.
   */
  lemma RerouteKeepsEnvelope(root: Json, binder: Binder, int32: string -> Option<int32>)
    requires Peek(root, binder, int32).Some?
    ensures var m := Peek(root, binder, int32).value;
      && m.Invocation?
      && m.target == CatchAllTarget
      && |m.arguments| == 1
      && m.arguments[0] == root
      && GetProperty(m.arguments[0].members, "target") == Some(JString(InvocationTarget(root, int32).value))
      && (m.invocationId.Some? <==> exists id :: GetProperty(root.members, "invocationId") == Some(JString(id)))
      && (m.invocationId.Some? ==> GetProperty(root.members, "invocationId") == Some(JString(m.invocationId.value)))
  {
  }

  /**
   * Bytes arriving after a complete record do not change how that record is
   * cut: the same payload, and the later bytes simply follow the rest.
   */
  lemma FrameUnaffectedByLaterBytes(a: seq<byte>, b: seq<byte>)
    requires RecordSeparator in a
    ensures var i := Sequences.IndexOf(a, RecordSeparator).value;
      && Sequences.IndexOf(a + b, RecordSeparator) == Some(i)
      && (a + b)[..i] == a[..i]
      && (a + b)[i + 1..] == a[i + 1..] + b
  {
    Sequences.IndexOfExtends(a, b, RecordSeparator);
    var i := Sequences.IndexOf(a, RecordSeparator).value;
    assert (a + b)[i + 1..] == a[i + 1..] + b;
  }

  /**
   * Bytes of an incomplete record are not lost: once its separator arrives,
   * the record cut from the joined input starts with them.
   */
  lemma IncompleteFrameCompletedLater(a: seq<byte>, b: seq<byte>)
    requires RecordSeparator !in a && RecordSeparator in b
    ensures var j := Sequences.IndexOf(b, RecordSeparator).value;
      && Sequences.IndexOf(a + b, RecordSeparator) == Some(|a| + j)
      && (a + b)[..|a| + j] == a + b[..j]
      && (a + b)[|a| + j + 1..] == b[j + 1..]
  {
    Sequences.IndexOfSkips(a, b, RecordSeparator);
    var j := Sequences.IndexOf(b, RecordSeparator).value;
    assert (a + b)[..|a| + j] == a + b[..j];
  }

  /** `Name`, `Version`, `TransferFormat`, `IsVersionSupported`, `GetMessageBytes` and `WriteMessage` are the inner protocol's. */
  lemma PassThroughMembers(p: CatchAllJsonHubProtocol)
    ensures p.Name() == p.inner.name && p.Version() == p.inner.version && p.Format() == p.inner.transferFormat
    ensures forall v :: p.IsVersionSupported(v) == p.inner.isVersionSupported(v)
    ensures forall m :: p.GetMessageBytes(m) == p.inner.getMessageBytes(m)
    ensures forall m, output :: p.WriteMessage(m, output) == p.inner.writeMessage(m, output)
  {
  }

  // A binder that knows one hub method, Foo(int, int).
  function FooBinder(target: string): ParameterTypes
  {
    if target == "Foo" then Types(2) else Throws
  }

  function ReadsOne(literal: string): Option<int32>
  {
    if literal == "1" then Some(1) else None
  }

  function InvocationFrame(target: string, arguments: seq<Json>): Json
  {
    JObject([Member("type", JNumber("1")), Member("target", JString(target)), Member("arguments", JArray(arguments))])
  }

  lemma InvocationFrameProperties(target: string, arguments: seq<Json>)
    ensures var members := InvocationFrame(target, arguments).members;
      && GetProperty(members, "type") == Some(JNumber("1"))
      && GetProperty(members, "target") == Some(JString(target))
      && GetProperty(members, "arguments") == Some(JArray(arguments))
      && GetProperty(members, "invocationId") == None
  {
    var members := InvocationFrame(target, arguments).members;
    var two := members[..2];
    var one := two[..1];
    assert two == [Member("type", JNumber("1")), Member("target", JString(target))];
    assert one == [Member("type", JNumber("1"))];
    assert "arguments" != "type" && "target" != "type" && "arguments" != "target";
    assert "invocationId" != "arguments" && "invocationId" != "target" && "invocationId" != "type";
    assert GetProperty(one, "type") == Some(JNumber("1"));
    assert GetProperty(two, "type") == Some(JNumber("1"));
    assert GetProperty(one, "invocationId") == None;
    assert GetProperty(two, "invocationId") == None;
  }

  /** A well-formed invocation frame is rerouted exactly when the binder does not expect its argument count. */
  lemma InvocationFramePeek(target: string, arguments: seq<Json>, binder: Binder)
    ensures var frame := InvocationFrame(target, arguments);
      Peek(frame, binder, ReadsOne) ==
        if ExpectedCount(binder(target)) == Some(|arguments|) then None
        else Some(Invocation(None, CatchAllTarget, [frame]))
  {
    var frame := InvocationFrame(target, arguments);
    InvocationFrameProperties(target, arguments);
    assert InvocationTarget(frame, ReadsOne) == Some(target);
    assert ArgumentCount(frame.members) == |arguments|;
    assert InvocationIdOf(frame.members) == None;
  }

  /** `Foo` with two arguments is a known, well-formed invocation and goes to the inner parser. */
  lemma MatchingInvocationPassesThrough()
    ensures Peek(InvocationFrame("Foo", [JNumber("1"), JNumber("2")]), FooBinder, ReadsOne) == None
  {
    InvocationFramePeek("Foo", [JNumber("1"), JNumber("2")], FooBinder);
  }

  /** `Foo` with one argument is an arity mismatch: rerouted with the whole envelope. */
  lemma ArityMismatchRerouted()
    ensures var foo := InvocationFrame("Foo", [JNumber("1")]);
      Peek(foo, FooBinder, ReadsOne) == Some(Invocation(None, CatchAllTarget, [foo]))
  {
    InvocationFramePeek("Foo", [JNumber("1")], FooBinder);
  }

  /** The unknown `Bar` makes the binder throw: rerouted with the whole envelope. */
  lemma UnknownTargetRerouted()
    ensures var bar := InvocationFrame("Bar", []);
      Peek(bar, FooBinder, ReadsOne) == Some(Invocation(None, CatchAllTarget, [bar]))
  {
    InvocationFramePeek("Bar", [], FooBinder);
    assert FooBinder("Bar") == Throws;
  }
}
