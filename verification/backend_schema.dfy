/**
 * The recap data model: a versioned snippet with its validation metadata,
 * and the recap that holds the final snippet, the rejected ones, a summary
 * and two lists of notes. Building a record from a dict fills in the
 * defaults and refuses fields of the wrong type; a recap also refuses
 * fields it does not declare. Dumping a record gives back a dict.
 */
module Schema {
  import opened PyValues

  datatype EnrichedSnippet = EnrichedSnippet(
    version: int,
    snippetId: string,
    content: string,
    diffSummary: string,
    validation: map<string, Value>)

  datatype Recap = Recap(
    sessionId: string,
    final: Option<EnrichedSnippet>,
    rejectedVersions: seq<EnrichedSnippet>,
    summary: string,
    ahaMoments: seq<string>,
    qualityFlags: seq<string>)

  /** The default `diff_summary`. */
  const NoChange := "No change"

  /**
   * `EnrichedSnippet(**fields)`: version, snippet_id and content are
   * required; diff_summary defaults to "No change" and validation to `{}`;
   * undeclared fields are ignored.
   */
  function ParseSnippet(fields: map<string, Value>): (r: Result<EnrichedSnippet>)
    ensures r.Ok? <==>
      && "version" in fields && fields["version"].Int?
      && "snippet_id" in fields && fields["snippet_id"].Str?
      && "content" in fields && fields["content"].Str?
      && GetOr(fields, "diff_summary", Str(NoChange)).Str?
      && GetOr(fields, "validation", Dict(map[])).Dict?
    ensures r.Err? ==> r.error.ValidationError?
    ensures r.Ok? ==> r.value.version == fields["version"].i
    ensures r.Ok? ==> r.value.snippetId == fields["snippet_id"].s
    ensures r.Ok? ==> r.value.content == fields["content"].s
    ensures r.Ok? && "diff_summary" !in fields ==> r.value.diffSummary == NoChange
    ensures r.Ok? && "validation" !in fields ==> r.value.validation == map[]
    ensures r.Ok? && "diff_summary" in fields ==> r.value.diffSummary == fields["diff_summary"].s
    ensures r.Ok? && "validation" in fields ==> r.value.validation == fields["validation"].entries
  {
    if "version" !in fields || !fields["version"].Int? then Err(ValidationError("version"))
    else if "snippet_id" !in fields || !fields["snippet_id"].Str? then Err(ValidationError("snippet_id"))
    else if "content" !in fields || !fields["content"].Str? then Err(ValidationError("content"))
    else
      var diffSummary := GetOr(fields, "diff_summary", Str(NoChange));
      var validation := GetOr(fields, "validation", Dict(map[]));
      if !diffSummary.Str? then Err(ValidationError("diff_summary"))
      else if !validation.Dict? then Err(ValidationError("validation"))
      else Ok(EnrichedSnippet(fields["version"].i, fields["snippet_id"].s, fields["content"].s,
                              diffSummary.s, validation.entries))
  }

  /** `snippet.model_dump()`. */
  function DumpSnippet(e: EnrichedSnippet): map<string, Value> {
    map["version" := Int(e.version), "snippet_id" := Str(e.snippetId), "content" := Str(e.content),
        "diff_summary" := Str(e.diffSummary), "validation" := Dict(e.validation)]
  }

  /** A dumped snippet is rebuilt unchanged. */
  lemma SnippetRoundTrip(e: EnrichedSnippet)
    ensures ParseSnippet(DumpSnippet(e)) == Ok(e)
  {
  }

  /** The fields a recap declares; any other field is refused. */
  const RecapFields: set<string> :=
    {"session_id", "final", "rejected_versions", "summary", "aha_moments", "quality_flags"}

  /** A list of snippet dicts, each built as a snippet. */
  function ParseSnippets(items: seq<Value>): (r: Result<seq<EnrichedSnippet>>)
    ensures r.Err? ==> r.error.ValidationError?
    ensures r.Ok? ==> |r.value| == |items|
    ensures r.Ok? <==> forall i :: 0 <= i < |items| ==> items[i].Dict? && ParseSnippet(items[i].entries).Ok?
    ensures r.Ok? ==> forall i :: 0 <= i < |items| ==> Ok(r.value[i]) == ParseSnippet(items[i].entries)
  {
    if items == [] then Ok([])
    else if !items[0].Dict? then Err(ValidationError("rejected_versions"))
    else match ParseSnippet(items[0].entries)
      case Err(_) => Err(ValidationError("rejected_versions"))
      case Ok(e) =>
        match ParseSnippets(items[1..])
        case Err(err) => Err(err)
        case Ok(rest) => Ok([e] + rest)
  }

  /** A list of strings. */
  function ParseStrings(items: seq<Value>): (r: Option<seq<string>>)
    ensures r.Some? <==> forall i :: 0 <= i < |items| ==> items[i].Str?
    ensures r.Some? ==> |r.value| == |items| && forall i :: 0 <= i < |items| ==> r.value[i] == items[i].s
  {
    if items == [] then Some([])
    else if !items[0].Str? then None
    else match ParseStrings(items[1..])
      case None => None
      case Some(rest) => Some([items[0].s] + rest)
  }

  /** An optional list-of-strings field: missing means `[]`. */
  function StringsField(fields: map<string, Value>, key: string): Option<seq<string>> {
    match GetOr(fields, key, List([]))
    case List(items) => ParseStrings(items)
    case _ => None
  }

  /** The optional `final` field: missing or None means no final snippet. */
  function FinalField(fields: map<string, Value>): (r: Result<Option<EnrichedSnippet>>)
    ensures r.Err? ==> r.error.ValidationError?
  {
    match GetOr(fields, "final", Null)
    case Null => Ok(None)
    case Dict(entries) =>
      (match ParseSnippet(entries)
       case Ok(e) => Ok(Some(e))
       case Err(_) => Err(ValidationError("final")))
    case _ => Err(ValidationError("final"))
  }

  /** The `rejected_versions` field: missing means `[]`. */
  function RejectedField(fields: map<string, Value>): (r: Result<seq<EnrichedSnippet>>)
    ensures r.Err? ==> r.error.ValidationError?
  {
    match GetOr(fields, "rejected_versions", List([]))
    case List(items) => ParseSnippets(items)
    case _ => Err(ValidationError("rejected_versions"))
  }

  /**
   * `Recap(**fields)`: every field is optional (a missing session_id gets
   * the fresh id `freshId`), each present field must have its declared
   * type, and an undeclared field is refused.
   */
  function ParseRecap(fields: map<string, Value>, freshId: string): (r: Result<Recap>)
    ensures r.Ok? ==> fields.Keys <= RecapFields
    ensures r.Err? ==> r.error.ValidationError?
    ensures r.Ok? && "session_id" !in fields ==> r.value.sessionId == freshId
    ensures r.Ok? && "final" !in fields ==> r.value.final == None
    ensures r.Ok? && "rejected_versions" !in fields ==> r.value.rejectedVersions == []
    ensures r.Ok? && "summary" !in fields ==> r.value.summary == ""
    ensures r.Ok? && "aha_moments" !in fields ==> r.value.ahaMoments == []
    ensures r.Ok? && "quality_flags" !in fields ==> r.value.qualityFlags == []
    ensures r.Ok? && "session_id" in fields ==> fields["session_id"] == Str(r.value.sessionId)
    ensures r.Ok? && "summary" in fields ==> fields["summary"] == Str(r.value.summary)
    ensures r.Ok? && "final" in fields ==>
      (fields["final"] == Null && r.value.final == None)
      || (fields["final"].Dict? && r.value.final.Some? && ParseSnippet(fields["final"].entries) == Ok(r.value.final.value))
    ensures r.Ok? && "rejected_versions" in fields ==>
      fields["rejected_versions"].List? && ParseSnippets(fields["rejected_versions"].items) == Ok(r.value.rejectedVersions)
    ensures r.Ok? && "aha_moments" in fields ==>
      fields["aha_moments"].List? && ParseStrings(fields["aha_moments"].items) == Some(r.value.ahaMoments)
    ensures r.Ok? && "quality_flags" in fields ==>
      fields["quality_flags"].List? && ParseStrings(fields["quality_flags"].items) == Some(r.value.qualityFlags)
  {
    if !(fields.Keys <= RecapFields) then Err(ValidationError("extra_forbidden"))
    else
      var sessionId := GetOr(fields, "session_id", Str(freshId));
      var summary := GetOr(fields, "summary", Str(""));
      if !sessionId.Str? then Err(ValidationError("session_id"))
      else match FinalField(fields)
        case Err(e) => Err(e)
        case Ok(final) =>
          match RejectedField(fields)
          case Err(e) => Err(e)
          case Ok(rejected) =>
            if !summary.Str? then Err(ValidationError("summary"))
            else match StringsField(fields, "aha_moments")
              case None => Err(ValidationError("aha_moments"))
              case Some(aha) =>
                match StringsField(fields, "quality_flags")
                case None => Err(ValidationError("quality_flags"))
                case Some(flags) => Ok(Recap(sessionId.s, final, rejected, summary.s, aha, flags))
  }

  function DumpSnippets(xs: seq<EnrichedSnippet>): (r: seq<Value>)
    ensures |r| == |xs| && forall i :: 0 <= i < |xs| ==> r[i] == Dict(DumpSnippet(xs[i]))
  {
    if xs == [] then [] else [Dict(DumpSnippet(xs[0]))] + DumpSnippets(xs[1..])
  }

  function DumpStrings(xs: seq<string>): (r: seq<Value>)
    ensures |r| == |xs| && forall i :: 0 <= i < |xs| ==> r[i] == Str(xs[i])
  {
    if xs == [] then [] else [Str(xs[0])] + DumpStrings(xs[1..])
  }

  /** `recap.model_dump()`: exactly the six declared fields. */
  function DumpRecap(recap: Recap): (d: map<string, Value>)
    ensures d.Keys == RecapFields
  {
    map["session_id" := Str(recap.sessionId),
        "final" := (match recap.final case None => Null case Some(e) => Dict(DumpSnippet(e))),
        "rejected_versions" := List(DumpSnippets(recap.rejectedVersions)),
        "summary" := Str(recap.summary),
        "aha_moments" := List(DumpStrings(recap.ahaMoments)),
        "quality_flags" := List(DumpStrings(recap.qualityFlags))]
  }

  lemma {:induction false} SnippetsRoundTrip(xs: seq<EnrichedSnippet>)
    ensures ParseSnippets(DumpSnippets(xs)) == Ok(xs)
  {
    if xs != [] {
      SnippetsRoundTrip(xs[1..]);
      SnippetRoundTrip(xs[0]);
      assert DumpSnippets(xs)[1..] == DumpSnippets(xs[1..]);
      assert [xs[0]] + xs[1..] == xs;
    }
  }

  lemma {:induction false} StringsRoundTrip(xs: seq<string>)
    ensures ParseStrings(DumpStrings(xs)) == Some(xs)
  {
    if xs != [] {
      StringsRoundTrip(xs[1..]);
      assert DumpStrings(xs)[1..] == DumpStrings(xs[1..]);
      assert [xs[0]] + xs[1..] == xs;
    }
  }

  /** The `final` field of a dump parses back to the recap's final snippet. */
  lemma DumpedFinalField(recap: Recap)
    ensures FinalField(DumpRecap(recap)) == Ok(recap.final)
  {
    if recap.final.Some? {
      SnippetRoundTrip(recap.final.value);
    }
  }

  /** The `rejected_versions` field of a dump parses back to the recap's rejected snippets. */
  lemma DumpedRejectedField(recap: Recap)
    ensures RejectedField(DumpRecap(recap)) == Ok(recap.rejectedVersions)
  {
    SnippetsRoundTrip(recap.rejectedVersions);
  }

  /** The list-of-strings fields of a dump parse back to the recap's lists. */
  lemma DumpedStringFields(recap: Recap)
    ensures StringsField(DumpRecap(recap), "aha_moments") == Some(recap.ahaMoments)
    ensures StringsField(DumpRecap(recap), "quality_flags") == Some(recap.qualityFlags)
  {
    StringsRoundTrip(recap.ahaMoments);
    StringsRoundTrip(recap.qualityFlags);
  }

  /** A dumped recap is rebuilt unchanged, whatever fresh id would have been drawn. */
  lemma RecapRoundTrip(recap: Recap, freshId: string)
    ensures ParseRecap(DumpRecap(recap), freshId) == Ok(recap)
  {
    DumpedFinalField(recap);
    DumpedRejectedField(recap);
    DumpedStringFields(recap);
  }

  /** An empty dict gives the all-defaults recap. */
  lemma EmptyRecapDefaults(freshId: string)
    ensures ParseRecap(map[], freshId) == Ok(Recap(freshId, None, [], "", [], []))
  {
  }
}
