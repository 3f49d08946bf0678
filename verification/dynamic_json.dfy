/**
 * The dynamic JSON converter of SignalChop/DynamicJsonConverter.cs (and its
 * copy nested in SignalChop/Program.cs): JSON trees decoded into a tagged
 * value.  Object members that decode to null are dropped, an empty array
 * decodes to null, a number becomes the last of Int64, Double and Decimal
 * that converts it, and a string becomes a DateTimeOffset, else a
 * DateTime, else stays a string.
 */
module DynamicJson {
  import opened Wrappers
  import opened Json

  /** The run-time value `dynamic` holds after decoding. */
  datatype Dynamic =
    | Null
    | Bool(b: bool)
    | Int32(i: int32)
    | Int64(l: int64)
    | Double(d: real)
    | Decimal(m: real)
    | Text(s: string)
    | DateTime(dt: DateTimeValue)
    | DateTimeOffset(dto: DateTimeOffsetValue)
    | List(items: seq<Dynamic>)
    | Expando(fields: seq<Field>)
    | Element(element: Json)

  /** One property of an `ExpandoObject`, which keeps its properties in insertion order. */
  datatype Field = Field(name: string, value: Dynamic)

  datatype ReadError = FormatError | ParseError

  /** The value of the property called `name`. */
  function Get(fields: seq<Field>, name: string): Option<Dynamic>
    decreases |fields|
  {
    if |fields| == 0 then None
    else if fields[0].name == name then Some(fields[0].value)
    else Get(fields[1..], name)
  }

  predicate DistinctNames(fields: seq<Field>)
  {
    forall i, j :: 0 <= i < j < |fields| ==> fields[i].name != fields[j].name
  }

  /** `expando[name] = value`: overwrite in place when present, append otherwise. */
  function Put(fields: seq<Field>, name: string, value: Dynamic): (r: seq<Field>)
    decreases |fields|
  {
    if |fields| == 0 then [Field(name, value)]
    else if fields[0].name == name then [Field(name, value)] + fields[1..]
    else [fields[0]] + Put(fields[1..], name, value)
  }

  /**
   * The `foreach` of `ReadObject` over the decoded members: each non-null
   * value is stored under its member's name.
   */
  function Fill(decoded: seq<Field>): seq<Field>
    decreases |decoded|
  {
    if |decoded| == 0 then []
    else
      var last := decoded[|decoded| - 1];
      var prior := Fill(decoded[..|decoded| - 1]);
      if last.value.Null? then prior else Put(prior, last.name, last.value)
  }

  /** `ReadValue` on a JSON number: the last conversion that succeeds wins, 0 if none does. */
  function ReadNumber(literal: string, library: JsonLibrary): (r: Dynamic)
    ensures library.decimal(literal).Some? ==> r == Decimal(library.decimal(literal).value)
    ensures library.decimal(literal).None? && library.double(literal).Some?
            ==> r == Double(library.double(literal).value)
    ensures library.decimal(literal).None? && library.double(literal).None? && library.int64(literal).Some?
            ==> r == Int64(library.int64(literal).value)
    ensures library.decimal(literal).None? && library.double(literal).None? && library.int64(literal).None?
            ==> r == Int32(0)
  {
    var r0 := Int32(0);
    var r1 := if library.int64(literal).Some? then Int64(library.int64(literal).value) else r0;
    var r2 := if library.double(literal).Some? then Double(library.double(literal).value) else r1;
    if library.decimal(literal).Some? then Decimal(library.decimal(literal).value) else r2
  }

  /** `ReadValue` on a JSON string: a DateTimeOffset beats a DateTime, either beats the text. */
  function ReadString(text: string, library: JsonLibrary): (r: Dynamic)
    ensures library.dateTimeOffset(text).Some? ==> r == DateTimeOffset(library.dateTimeOffset(text).value)
    ensures library.dateTimeOffset(text).None? && library.dateTime(text).Some?
            ==> r == DateTime(library.dateTime(text).value)
    ensures library.dateTimeOffset(text).None? && library.dateTime(text).None? ==> r == Text(text)
  {
    var r0 := Text(text);
    var r1 := if library.dateTime(text).Some? then DateTime(library.dateTime(text).value) else r0;
    if library.dateTimeOffset(text).Some? then DateTimeOffset(library.dateTimeOffset(text).value) else r1
  }

  /**
   * What every decoded tree looks like: objects hold distinct names and no
   * null values, lists are never empty, and the raw `Element` of the
   * top-level reader never occurs inside.
   */
  predicate WellFormed(v: Dynamic)
  {
    match v
    case List(items) => |items| > 0 && forall i :: 0 <= i < |items| ==> WellFormed(items[i])
    case Expando(fields) =>
      && DistinctNames(fields)
      && forall i :: 0 <= i < |fields| ==> !fields[i].value.Null? && WellFormed(fields[i].value)
    case Element(_) => false
    case _ => true
  }

  /** `ReadValue`: total over the kinds a JSON tree has. */
  function ReadValue(element: Json, library: JsonLibrary): (r: Dynamic)
    ensures WellFormed(r)
    ensures r.Null? <==> element == JNull || element == JArray([])
    decreases element, 1
  {
    match element
    case JObject(members) => ReadObject(members, library)
    case JArray(items) => ReadList(items, library)
    case JString(text) => ReadString(text, library)
    case JNumber(literal) => ReadNumber(literal, library)
    case JBool(b) => Bool(b)
    case JNull => Null
  }

  /** `ReadObject`: a fresh `ExpandoObject` filled with the non-null decoded members. */
  function ReadObject(members: seq<Member>, library: JsonLibrary): (r: Dynamic)
    ensures r.Expando? && WellFormed(r)
    decreases JObject(members), 0
  {
    var decoded := seq(|members|, i requires 0 <= i < |members| =>
      Field(members[i].name, ReadValue(members[i].value, library)));
    FillWellFormed(decoded);
    Expando(Fill(decoded))
  }

  /** `ReadList`: the decoded elements in order, or null for an empty array. */
  function ReadList(items: seq<Json>, library: JsonLibrary): (r: Dynamic)
    ensures |items| == 0 ==> r == Null
    ensures |items| > 0 ==> r.List? && |r.items| == |items|
    ensures WellFormed(r)
    decreases JArray(items), 0
  {
    var list := seq(|items|, i requires 0 <= i < |items| => ReadValue(items[i], library));
    if |list| == 0 then Null else List(list)
  }

  lemma {:induction false} PutGet(fields: seq<Field>, name: string, value: Dynamic, key: string)
    ensures Get(Put(fields, name, value), key) == if key == name then Some(value) else Get(fields, key)
    decreases |fields|
  {
    if |fields| > 0 && fields[0].name != name {
      PutGet(fields[1..], name, value, key);
      assert Put(fields, name, value)[1..] == Put(fields[1..], name, value);
    }
  }

  /** Every field `Put` leaves is an old field or the new one, and names stay distinct. */
  lemma {:induction false} PutFields(fields: seq<Field>, name: string, value: Dynamic)
    requires DistinctNames(fields)
    ensures DistinctNames(Put(fields, name, value))
    ensures forall f :: f in Put(fields, name, value) ==> f in fields || f == Field(name, value)
    decreases |fields|
  {
    var r := Put(fields, name, value);
    if |fields| == 0 {
    } else if fields[0].name == name {
      forall i, j | 0 <= i < j < |r| ensures r[i].name != r[j].name {
        assert r[j] == fields[j];
        if i > 0 { assert r[i] == fields[i]; }
      }
      forall f | f in r ensures f in fields || f == Field(name, value) {
        if f != Field(name, value) { assert f in fields[1..]; }
      }
    } else {
      var tail := Put(fields[1..], name, value);
      PutFields(fields[1..], name, value);
      assert r == [fields[0]] + tail;
      forall j | 0 <= j < |tail| ensures tail[j].name != fields[0].name {
        assert tail[j] in tail;
        if tail[j] != Field(name, value) {
          var k :| 0 <= k < |fields[1..]| && fields[1..][k] == tail[j];
          assert fields[k + 1] == tail[j];
        }
      }
      forall i, j | 0 <= i < j < |r| ensures r[i].name != r[j].name {
        assert r[j] == tail[j - 1];
        if i > 0 { assert r[i] == tail[i - 1]; }
      }
      forall f | f in r ensures f in fields || f == Field(name, value) {
        if f != fields[0] { assert f in tail; if f != Field(name, value) { assert f in fields[1..]; } }
      }
    }
  }

  /** The expando `Fill` builds keeps distinct names and only non-null values taken from the input. */
  lemma {:induction false} FillWellFormed(decoded: seq<Field>)
    ensures DistinctNames(Fill(decoded))
    ensures forall f :: f in Fill(decoded) ==> f in decoded && !f.value.Null?
    decreases |decoded|
  {
    if |decoded| > 0 {
      var last := decoded[|decoded| - 1];
      FillWellFormed(decoded[..|decoded| - 1]);
      if !last.value.Null? {
        PutFields(Fill(decoded[..|decoded| - 1]), last.name, last.value);
      }
    }
  }

  /**
   * A name is present after the `foreach` exactly when some member of that
   * name decoded to a non-null value, and it then holds the value of the last
   * such member: a later non-null duplicate overwrites an earlier one.
   */
  lemma {:induction false} FillKeepsLastNonNull(decoded: seq<Field>, key: string)
    ensures Get(Fill(decoded), key).None? <==>
      forall i :: 0 <= i < |decoded| && decoded[i].name == key ==> decoded[i].value.Null?
    ensures Get(Fill(decoded), key).Some? ==>
      exists i :: 0 <= i < |decoded| && decoded[i] == Field(key, Get(Fill(decoded), key).value)
        && !decoded[i].value.Null?
        && forall j :: i < j < |decoded| && decoded[j].name == key ==> decoded[j].value.Null?
    decreases |decoded|
  {
    if |decoded| > 0 {
      var n := |decoded| - 1;
      var last, front := decoded[n], decoded[..n];
      FillKeepsLastNonNull(front, key);
      assert Fill(decoded) == if last.value.Null? then Fill(front) else Put(Fill(front), last.name, last.value);
      assert forall i :: 0 <= i < n ==> front[i] == decoded[i];
      if !last.value.Null? {
        PutGet(Fill(front), last.name, last.value, key);
      }
      if !last.value.Null? && last.name == key {
        assert Get(Fill(decoded), key) == Some(last.value);
        assert decoded[n] == Field(key, last.value);
      } else {
        assert Get(Fill(decoded), key) == Get(Fill(front), key);
        var got := Get(Fill(front), key);
        if got.Some? {
          var i :| 0 <= i < n && front[i] == Field(key, got.value) && !front[i].value.Null?
            && forall j :: i < j < n && front[j].name == key ==> front[j].value.Null?;
          assert decoded[i] == Field(key, got.value);
        }
      }
    }
  }

  /**
   * `ReadObject` in terms of the JSON members: a name is kept exactly when a
   * member of that name decodes to non-null, with the last such value.
   */
  lemma ReadObjectKeepsLastNonNull(members: seq<Member>, library: JsonLibrary, key: string)
    ensures var fields := ReadObject(members, library).fields;
      Get(fields, key).None? <==>
        forall i :: 0 <= i < |members| && members[i].name == key ==> ReadValue(members[i].value, library).Null?
    ensures var fields := ReadObject(members, library).fields;
      Get(fields, key).Some? ==>
        exists i :: 0 <= i < |members| && members[i].name == key
          && ReadValue(members[i].value, library) == Get(fields, key).value
          && !Get(fields, key).value.Null?
          && forall j :: i < j < |members| && members[j].name == key ==> ReadValue(members[j].value, library).Null?
  {
    var decoded := seq(|members|, i requires 0 <= i < |members| =>
      Field(members[i].name, ReadValue(members[i].value, library)));
    assert ReadObject(members, library).fields == Fill(decoded);
    FillKeepsLastNonNull(decoded, key);
    assert forall i :: 0 <= i < |members| ==>
      decoded[i].name == members[i].name && decoded[i].value == ReadValue(members[i].value, library);
    var got := Get(Fill(decoded), key);
    if got.Some? {
      var i :| 0 <= i < |decoded| && decoded[i] == Field(key, got.value) && !decoded[i].value.Null?
        && forall j :: i < j < |decoded| && decoded[j].name == key ==> decoded[j].value.Null?;
      assert members[i].name == key && ReadValue(members[i].value, library) == got.value;
    }
  }

  /** JSON null and empty-array members disappear from a decoded object. */
  lemma NullMembersDropped(members: seq<Member>, library: JsonLibrary, key: string)
    requires forall i :: 0 <= i < |members| && members[i].name == key ==>
      members[i].value == JNull || members[i].value == JArray([])
    ensures Get(ReadObject(members, library).fields, key) == None
  {
    ReadObjectKeepsLastNonNull(members, library, key);
  }

  /** A non-empty array decodes element by element, in order, null elements kept. */
  lemma ReadListElementwise(items: seq<Json>, library: JsonLibrary, i: nat)
    requires i < |items|
    ensures ReadList(items, library).List?
    ensures ReadList(items, library).items[i] == ReadValue(items[i], library)
  {
  }

  /**
   * `Read`, the converter's entry point on the token the reader stands on.
   * It follows rules of its own: a number is an Int64 when it fits and a
   * Double otherwise (`GetDouble` throws when no double holds it), a string
   * is a DateTime when it parses and the text otherwise, an object goes
   * through `ReadObject`, and any other token (an array, null) is kept as a
   * clone of the raw element.
   */
  function Read(token: Json, library: JsonLibrary): (r: Result<Dynamic, ReadError>)
    ensures r.Failure? <==>
      token.JNumber? && library.int64(token.literal).None? && library.double(token.literal).None?
    ensures r.Success? ==> !r.value.Null?
    ensures token.JArray? || token.JNull? ==> r == Success(Element(token))
    ensures token.JBool? ==> r == Success(Bool(token.b))
    ensures token.JNumber? && library.int64(token.literal).Some? ==>
      r == Success(Int64(library.int64(token.literal).value))
    ensures token.JNumber? && library.int64(token.literal).None? && library.double(token.literal).Some? ==>
      r == Success(Double(library.double(token.literal).value))
    ensures token.JString? ==>
      r == Success(if library.dateTime(token.text).Some? then DateTime(library.dateTime(token.text).value)
                   else Text(token.text))
    ensures token.JObject? ==> r == Success(ReadObject(token.members, library))
  {
    match token
    case JBool(b) => Success(Bool(b))
    case JNumber(literal) =>
      if library.int64(literal).Some? then Success(Int64(library.int64(literal).value))
      else if library.double(literal).Some? then Success(Double(library.double(literal).value))
      else Failure(FormatError)
    case JString(text) =>
      if library.dateTime(text).Some? then Success(DateTime(library.dateTime(text).value))
      else Success(Text(text))
    case JObject(members) => Success(ReadObject(members, library))
    case _ => Success(Element(token))
  }

  /**
   * `Read` and `ReadValue` agree on booleans and objects and part ways
   * elsewhere: an Int64 that is also a Decimal, a string that is also a
   * DateTimeOffset, an empty array.
   */
  lemma ReadDiffersFromReadValue(token: Json, library: JsonLibrary)
    ensures token.JBool? || token.JObject? ==> Read(token, library) == Success(ReadValue(token, library))
    ensures token.JNumber? && library.int64(token.literal).Some? && library.decimal(token.literal).Some? ==>
      Read(token, library).value.Int64? && ReadValue(token, library).Decimal?
    ensures token.JString? && library.dateTime(token.text).Some? && library.dateTimeOffset(token.text).Some? ==>
      Read(token, library).value.DateTime? && ReadValue(token, library).DateTimeOffset?
    ensures token == JArray([]) ==> Read(token, library) == Success(Element(token)) && ReadValue(token, library) == Null
  {
  }

  /** `JsonSerializer.Deserialize<dynamic>` with this converter: parse the text, then `Read`. */
  function Deserialize(text: string, library: JsonLibrary): Result<Dynamic, ReadError>
  {
    match library.parseText(text)
    case None => Failure(ParseError)
    case Some(token) => Read(token, library)
  }
}
