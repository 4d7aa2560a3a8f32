/**
 * The check applied to the structured result of a classification: nine
 * required keys, a non-empty string session id, a string timestamp and six
 * list fields. The check either passes or raises; it never answers no.
 */
module ClaudeSchema {
  import opened PyValues

  /** The required keys, in the order they are looked for. */
  const RequiredKeys: seq<string> := [
    "session_id", "timestamp", "aha_moments", "mvp_changes", "scope_creep",
    "readme_notes", "post_mvp_ideas", "summary", "quality_flags"]

  /** The fields that must hold lists, in the order they are checked. */
  const ListFields: seq<string> := [
    "aha_moments", "mvp_changes", "scope_creep", "readme_notes", "post_mvp_ideas", "quality_flags"]

  /** The position of the first of `keys` that `data` lacks. */
  function FirstMissing(data: map<string, Value>, keys: seq<string>): (r: Option<nat>)
    ensures r.None? <==> forall i :: 0 <= i < |keys| ==> keys[i] in data
    ensures r.Some? ==> r.value < |keys| && keys[r.value] !in data
    ensures r.Some? ==> forall j :: 0 <= j < r.value ==> keys[j] in data
  {
    if keys == [] then None
    else if keys[0] !in data then Some(0)
    else match FirstMissing(data, keys[1..])
      case None => None
      case Some(i) => Some(i + 1)
  }

  /** The position of the first of `fields` whose value is not a list. */
  function FirstNonList(data: map<string, Value>, fields: seq<string>): (r: Option<nat>)
    requires forall i :: 0 <= i < |fields| ==> fields[i] in data
    ensures r.None? <==> forall i :: 0 <= i < |fields| ==> data[fields[i]].List?
    ensures r.Some? ==> r.value < |fields| && !data[fields[r.value]].List?
    ensures r.Some? ==> forall j :: 0 <= j < r.value ==> data[fields[j]].List?
  {
    if fields == [] then None
    else if !data[fields[0]].List? then Some(0)
    else match FirstNonList(data, fields[1..])
      case None => None
      case Some(i) => Some(i + 1)
  }

  /** Every list field is also a required key. */
  lemma ListFieldsAreRequired()
    ensures forall i :: 0 <= i < |ListFields| ==> ListFields[i] in RequiredKeys
  {
  }

  /** A non-empty string. */
  predicate NonEmptyStr(v: Value) {
    v.Str? && v.s != ""
  }

  /**
   * `validate_claude_result`: the first missing key is reported; then the
   * session id, the timestamp and the list fields are checked in that order.
   */
  function ValidateClaudeResult(data: map<string, Value>): (r: Result<bool>)
    ensures r.Ok? ==> r.value
    ensures r.Err? ==> r.error.ValueError?
    ensures r.Ok? <==>
      && (forall i :: 0 <= i < |RequiredKeys| ==> RequiredKeys[i] in data)
      && "session_id" in data && NonEmptyStr(data["session_id"])
      && "timestamp" in data && data["timestamp"].Str?
      && (forall i :: 0 <= i < |ListFields| ==> ListFields[i] in data && data[ListFields[i]].List?)
  {
    ListFieldsAreRequired();
    match FirstMissing(data, RequiredKeys)
    case Some(i) => Err(ValueError("Missing required field: " + RequiredKeys[i]))
    case None =>
      assert "session_id" == RequiredKeys[0] && "timestamp" == RequiredKeys[1];
      if !NonEmptyStr(data["session_id"]) then Err(ValueError("Invalid session_id"))
      else if !data["timestamp"].Str? then Err(ValueError("Invalid timestamp"))
      else match FirstNonList(data, ListFields)
        case Some(i) => Err(ValueError("Field " + ListFields[i] + " must be a list"))
        case None => Ok(true)
  }

  /** A missing key is reported before any type check, naming the first one missing in list order. */
  lemma MissingKeyFirst(data: map<string, Value>, i: nat)
    requires i < |RequiredKeys| && RequiredKeys[i] !in data
    requires forall j :: 0 <= j < i ==> RequiredKeys[j] in data
    ensures ValidateClaudeResult(data) == Err(ValueError("Missing required field: " + RequiredKeys[i]))
  {
    var m := FirstMissing(data, RequiredKeys);
    assert m.Some?;
    assert m.value == i;
  }

  /**
   * With every key present, a session id that is not a non-empty string is
   * reported first; then a timestamp that is not a string.
   */
  lemma HeaderFieldsReported(data: map<string, Value>)
    requires forall j :: 0 <= j < |RequiredKeys| ==> RequiredKeys[j] in data
    ensures "session_id" in data && "timestamp" in data
    ensures !NonEmptyStr(data["session_id"]) ==> ValidateClaudeResult(data) == Err(ValueError("Invalid session_id"))
    ensures NonEmptyStr(data["session_id"]) && !data["timestamp"].Str? ==>
      ValidateClaudeResult(data) == Err(ValueError("Invalid timestamp"))
  {
    assert RequiredKeys[0] in data && RequiredKeys[1] in data;
    assert FirstMissing(data, RequiredKeys).None?;
  }

  /**
   * With every key present and the session id and timestamp well typed, the
   * first field (in list order) that is not a list is the one reported.
   */
  lemma NonListFieldReported(data: map<string, Value>, i: nat)
    requires forall j :: 0 <= j < |RequiredKeys| ==> RequiredKeys[j] in data
    requires "session_id" in data && NonEmptyStr(data["session_id"])
    requires "timestamp" in data && data["timestamp"].Str?
    requires i < |ListFields| && ListFields[i] in data && !data[ListFields[i]].List?
    requires forall j :: 0 <= j < i ==> ListFields[j] in data && data[ListFields[j]].List?
    ensures ValidateClaudeResult(data) == Err(ValueError("Field " + ListFields[i] + " must be a list"))
  {
    ListFieldsAreRequired();
    assert FirstMissing(data, RequiredKeys).None?;
    var m := FirstNonList(data, ListFields);
    assert m.Some?;
    assert m.value == i;
  }

  /** Keys the check does not ask for never change its outcome. */
  lemma ExtraKeysIgnored(data: map<string, Value>, key: string, v: Value)
    requires key !in RequiredKeys
    ensures ValidateClaudeResult(data[key := v]) == ValidateClaudeResult(data)
  {
    var data' := data[key := v];
    ListFieldsAreRequired();
    assert forall i :: 0 <= i < |RequiredKeys| ==> (RequiredKeys[i] in data' <==> RequiredKeys[i] in data);
    assert FirstMissing(data', RequiredKeys) == FirstMissing(data, RequiredKeys) by {
      FirstMissingAgrees(data', data, RequiredKeys);
    }
    if FirstMissing(data, RequiredKeys).None? {
      assert FirstNonList(data', ListFields) == FirstNonList(data, ListFields) by {
        FirstNonListAgrees(data', data, ListFields);
      }
    }
  }

  /** The summary is required but its type is never checked. */
  lemma SummaryTypeUnchecked(data: map<string, Value>, v: Value)
    requires "summary" in data
    ensures ValidateClaudeResult(data["summary" := v]) == ValidateClaudeResult(data)
  {
    var data' := data["summary" := v];
    ListFieldsAreRequired();
    assert data'.Keys == data.Keys;
    FirstMissingAgrees(data', data, RequiredKeys);
    if FirstMissing(data, RequiredKeys).None? {
      assert forall i :: 0 <= i < |ListFields| ==> data'[ListFields[i]] == data[ListFields[i]];
      FirstNonListAgrees(data', data, ListFields);
    }
  }

  lemma {:induction false} FirstMissingAgrees(a: map<string, Value>, b: map<string, Value>, keys: seq<string>)
    requires forall i :: 0 <= i < |keys| ==> (keys[i] in a <==> keys[i] in b)
    ensures FirstMissing(a, keys) == FirstMissing(b, keys)
  {
    if keys != [] {
      FirstMissingAgrees(a, b, keys[1..]);
    }
  }

  lemma {:induction false} FirstNonListAgrees(a: map<string, Value>, b: map<string, Value>, fields: seq<string>)
    requires forall i :: 0 <= i < |fields| ==> fields[i] in a && fields[i] in b
    requires forall i :: 0 <= i < |fields| ==> a[fields[i]] == b[fields[i]]
    ensures FirstNonList(a, fields) == FirstNonList(b, fields)
  {
    if fields != [] {
      FirstNonListAgrees(a, b, fields[1..]);
    }
  }
}
