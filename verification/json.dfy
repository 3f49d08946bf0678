/**
 * JSON values (RFC 8259) as System.Text.Json presents them to the client: a
 * number keeps its literal text, an object keeps its members in document
 * order, duplicates included.  The library conversions the client relies on
 * (JsonDocument.Parse, JsonElement.TryGetInt32 and friends) are not
 * re-implemented; they are the fields of a `JsonLibrary` value that every
 * operation depending on them takes as a parameter.
 */
module Json {
  import opened Wrappers

  type byte = b: int | 0 <= b < 0x100
  type int32 = x: int | -0x8000_0000 <= x < 0x8000_0000
  type int64 = x: int | -0x8000_0000_0000_0000 <= x < 0x8000_0000_0000_0000

  datatype Json =
    | JNull
    | JBool(b: bool)
    | JNumber(literal: string)
    | JString(text: string)
    | JArray(items: seq<Json>)
    | JObject(members: seq<Member>)

  datatype Member = Member(name: string, value: Json)

  /** A `System.DateTime`, kept abstract as its tick count. */
  datatype DateTimeValue = DateTimeValue(ticks: int)

  /** A `System.DateTimeOffset`: local ticks and the offset from UTC in minutes. */
  datatype DateTimeOffsetValue = DateTimeOffsetValue(ticks: int, offsetMinutes: int)

  /**
   * The System.Text.Json operations the client calls, each `None` where the
   * library reports failure (a `TryGet...` returning false, a `Get...` or a
   * parse throwing).  `double` and `decimal` give the exact value the
   * converted number holds.
   */
  datatype JsonLibrary = JsonLibrary(
    parseBytes: seq<byte> -> Option<Json>,
    parseText: string -> Option<Json>,
    int32: string -> Option<int32>,
    int64: string -> Option<int64>,
    double: string -> Option<real>,
    decimal: string -> Option<real>,
    dateTime: string -> Option<DateTimeValue>,
    dateTimeOffset: string -> Option<DateTimeOffsetValue>)

  /**
   * `JsonElement.TryGetProperty` on an object: the value of the member called
   * `name`; when several members have that name the last one is matched.
   */
  function GetProperty(members: seq<Member>, name: string): (r: Option<Json>)
    ensures r.None? <==> forall i :: 0 <= i < |members| ==> members[i].name != name
    ensures r.Some? ==> exists i :: 0 <= i < |members| && members[i] == Member(name, r.value)
                                    && forall j :: i < j < |members| ==> members[j].name != name
    decreases |members|
  {
    if |members| == 0 then None
    else
      var last := members[|members| - 1];
      if last.name == name then Some(last.value)
      else GetProperty(members[..|members| - 1], name)
  }
}
