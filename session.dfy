/** The server-side session: a dynamic key-value object that the route handlers and `logout`
    read and update in place, and the records stored in it. */
module Session {
  import opened Results

  /** One entry of the `objects_{namespace}` cache (`label` is a Dafny keyword, hence `labelText`). */
  datatype ObjectInfo = ObjectInfo(labelText: string, apiName: string, keyPrefix: Option<string>, custom: bool)

  /** `session.selectedObject`. */
  datatype SelectedObject = SelectedObject(apiName: string, labelText: string, selectedAt: string)

  /** One element of `session.capturedRecords`. */
  datatype CaptureRecord = CaptureRecord(
    recordId: string,
    recordUrl: string,
    objectName: string,
    objectLabel: string,
    upgradeState: string,
    screenshotPath: string,
    screenshotFilename: string,
    recordName: string,
    capturedAt: string)

  /** The kinds of value the code stores in the session. */
  datatype Value =
    | Str(str: string)
    | Num(num: int)
    | Objects(objects: seq<ObjectInfo>)
    | Selected(selection: SelectedObject)
    | Captures(records: seq<CaptureRecord>)

  /** JavaScript truthiness of a possibly missing session entry: a missing key, the empty string
      and zero are falsy; arrays and objects are truthy even when empty. */
  predicate Truthy(v: Option<Value>)
  {
    match v
    case None => false
    case Some(Str(s)) => s != []
    case Some(Num(n)) => n != 0
    case Some(_) => true
  }

  /** The value stored under a key, if any. */
  function Lookup(entries: map<string, Value>, key: string): (v: Option<Value>)
    ensures v.Some? <==> key in entries
    ensures v.Some? ==> v.value == entries[key]
  {
    if key in entries then Some(entries[key]) else None
  }

  /** A string entry, with the empty string standing for a missing or non-string one. */
  function StrEntry(entries: map<string, Value>, key: string): (s: string)
    ensures s != [] <==> key in entries && entries[key].Str? && entries[key].str != []
  {
    if key in entries && entries[key].Str? then entries[key].str else ""
  }

  class Session {
    var entries: map<string, Value>

    constructor(entries: map<string, Value>)
      ensures this.entries == entries
    {
      this.entries := entries;
    }

    /** `session[key] = value`. */
    method Set(key: string, value: Value)
      modifies this
      ensures entries == old(entries)[key := value]
    {
      entries := entries[key := value];
    }

    /** `delete session[key]`. */
    method Delete(key: string)
      modifies this
      ensures entries == old(entries) - {key}
    {
      entries := entries - {key};
    }
  }
}
