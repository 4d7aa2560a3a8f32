/**
 * The in-process recap store used when the hosted memory service is not
 * available: recaps are kept in a dict keyed by session id, handed back on
 * request, and summarised in one sentence naming the last snippet's version.
 */
module MemoryHandler {
  import opened PyValues
  import opened Text

  /** The module-level fallback store. */
  class MemoryStore {
    var store: map<string, map<string, Value>>

    /** The store starts out empty. */
    constructor ()
      ensures store == map[]
    {
      store := map[];
    }

    /**
     * `store_memory`: a string id and a dict recap are stored under the id,
     * replacing what was there, and the id is returned; anything else is
     * refused before the store is touched.
     */
    method StoreMemory(sessionId: Value, recap: Value) returns (r: Result<string>)
      modifies this
      ensures r.Err? <==> !(sessionId.Str? && recap.Dict?)
      ensures r.Err? ==> r.error == ValueError("Invalid session_id or recap format") && store == old(store)
      ensures r.Ok? ==> r.value == sessionId.s && store == old(store)[sessionId.s := recap.entries]
      ensures r.Ok? ==> RetrieveMemory(sessionId) == Ok(Some(recap.entries))
      ensures forall id :: id in old(store) && (r.Err? || id != sessionId.s) ==> id in store && store[id] == old(store)[id]
      ensures forall id :: id !in old(store) && (r.Err? || id != sessionId.s) ==> id !in store
    {
      if !sessionId.Str? || !recap.Dict? {
        return Err(ValueError("Invalid session_id or recap format"));
      }
      store := store[sessionId.s := recap.entries];
      return Ok(sessionId.s);
    }

    /**
     * `retrieve_memory`: the recap stored under a string id, or None when
     * nothing was stored under it; a non-string id is refused.
     */
    function RetrieveMemory(sessionId: Value): (r: Result<Option<map<string, Value>>>)
      reads this
      ensures r.Err? <==> !sessionId.Str?
      ensures r.Err? ==> r.error == ValueError("Invalid session_id")
      ensures r.Ok? ==> (r.value.None? <==> sessionId.s !in store)
      ensures r.Ok? && r.value.Some? ==> r.value.value == store[sessionId.s]
    {
      if !sessionId.Str? then Err(ValueError("Invalid session_id"))
      else Ok(StoredUnder(store, sessionId.s))
    }
  }

  /** `d.get(key)` on the store's own type. */
  function StoredUnder(d: map<string, map<string, Value>>, key: string): Option<map<string, Value>> {
    if key in d then Some(d[key]) else None
  }

  /**
   * `str(v)` as an f-string renders it. How a list or a dict is rendered
   * (`repr`) is left to the parameter.
   */
  function PyStr(v: Value, repr: Value -> string): string {
    match v
    case Str(s) => s
    case Int(i) => IntToString(i)
    case Bool(b) => if b then "True" else "False"
    case Null => "None"
    case _ => repr(v)
  }

  /**
   * `snippets[-1]` for a non-empty `snippets`: the last item of a list or
   * the last character of a string; a dict has no key -1 and a number
   * cannot be indexed, so those fail.
   */
  function LastItem(snippets: Value): (r: Option<Value>)
    requires Truthy(snippets)
    ensures snippets.List? ==> r == Some(snippets.items[|snippets.items| - 1])
    ensures snippets.Str? ==> r == Some(Str([snippets.s[|snippets.s| - 1]]))
    ensures r.None? <==> !snippets.List? && !snippets.Str?
  {
    match snippets
    case List(items) => Some(items[|items| - 1])
    case Str(s) => Some(Str([s[|s| - 1]]))
    case _ => None
  }

  /** `final['version']`: only a dict holding the key has one. */
  function VersionOf(final: Value): (r: Option<Value>)
    ensures r.Some? <==> final.Dict? && "version" in final.entries
    ensures r.Some? ==> r.value == final.entries["version"]
  {
    if final.Dict? && "version" in final.entries then Some(final.entries["version"]) else None
  }

  const NoMemory := "No memory found for this session."
  const NoSnippets := "No snippets were stored in this session."
  const Unreadable := "Memory content was unreadable."

  function ChosenVersion(version: string): string {
    "In this session, the final snippet (v" + version + ") was validated and stored as the chosen version."
  }

  /** The `snippets` entry of a recap dict, `[]` when missing. */
  function Snippets(memoryObj: map<string, Value>): Value {
    GetOr(memoryObj, "snippets", List([]))
  }

  /**
   * `summarize_memory`: no memory for a missing, empty or non-dict recap; no
   * snippets when its `snippets` is missing or empty; otherwise the version
   * of the last snippet, or "unreadable" when that snippet has none.
   */
  function SummarizeMemory(memoryObj: Value, repr: Value -> string): (r: string)
    ensures r == NoMemory <==> !memoryObj.Dict? || memoryObj.entries == map[]
    ensures memoryObj.Dict? && memoryObj.entries != map[] ==>
      (r == NoSnippets <==> !Truthy(Snippets(memoryObj.entries)))
    ensures memoryObj.Dict? && Truthy(Snippets(memoryObj.entries)) ==>
      match LastItem(Snippets(memoryObj.entries))
      case None => r == Unreadable
      case Some(final) =>
        (VersionOf(final).None? ==> r == Unreadable)
        && (VersionOf(final).Some? ==> r == ChosenVersion(PyStr(VersionOf(final).value, repr)))
  {
    if !memoryObj.Dict? || memoryObj.entries == map[] then NoMemory
    else
      var snippets := Snippets(memoryObj.entries);
      if !Truthy(snippets) then NoSnippets
      else match LastItem(snippets)
        case None => Unreadable
        case Some(final) =>
          match VersionOf(final)
          case None => Unreadable
          case Some(version) => ChosenVersion(PyStr(version, repr))
  }

  /**
   * A recap whose last snippet carries an integer version is summarised
   * with that version, and a last snippet without one makes the recap
   * unreadable.
   */
  lemma LastSnippetVersionNamed(memoryObj: map<string, Value>, items: seq<Value>, repr: Value -> string)
    requires "snippets" in memoryObj && memoryObj["snippets"] == List(items) && items != []
    ensures VersionOf(items[|items| - 1]).Some? && VersionOf(items[|items| - 1]).value.Int? ==>
      SummarizeMemory(Dict(memoryObj), repr) == ChosenVersion(IntToString(VersionOf(items[|items| - 1]).value.i))
    ensures VersionOf(items[|items| - 1]).None? ==> SummarizeMemory(Dict(memoryObj), repr) == Unreadable
  {
    assert memoryObj != map[];
    assert Snippets(memoryObj) == List(items);
    var last := items[|items| - 1];
    assert LastItem(Snippets(memoryObj)) == Some(last);
    if VersionOf(last).Some? {
      var version := VersionOf(last).value;
      assert SummarizeMemory(Dict(memoryObj), repr) == ChosenVersion(PyStr(version, repr));
      if version.Int? {
        assert PyStr(version, repr) == IntToString(version.i);
      }
    }
  }
}
