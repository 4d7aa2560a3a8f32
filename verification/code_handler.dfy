/**
 * The alternative snippet handler: it pulls the fenced code out of a chat
 * text, numbers the snippets and diffs each against the one before, grades
 * a snippet with a Python parser, tags a snippet with the intent the user
 * voiced, and picks the last snippet the user accepted as final.
 *
 * The parser (`ast.parse`), the diff engine (`difflib.unified_diff`) and
 * `uuid.uuid4` are parameters.
 */
module CodeHandler {
  import opened PyValues
  import opened Text
  import opened Difflib

  /**
   * `extract_code_blocks`: an odd number of fences is refused; otherwise the
   * pieces at odd split positions, stripped and in order. Empty blocks are
   * kept and a language tag stays part of its block.
   */
  method ExtractCodeBlocks(text: string) returns (r: Result<seq<string>>)
    ensures r.Err? <==> CountFences(text) % 2 != 0
    ensures r.Err? ==> r == Err(ValueError("Unmatched code fence detected."))
    ensures r.Ok? ==> |r.value| == CountFences(text) / 2
    ensures r.Ok? ==> forall k :: 0 <= k < |r.value| ==> r.value[k] == Strip(SplitOnFence(text)[2 * k + 1])
  {
    if CountFences(text) % 2 != 0 {
      return Err(ValueError("Unmatched code fence detected."));
    }
    var parts := SplitOnFence(text);
    var blocks: seq<string> := [];
    var i := 1;
    while i < |parts|
      invariant 1 <= i <= |parts| + 1 && i % 2 == 1
      invariant |blocks| == (i - 1) / 2
      invariant forall k :: 0 <= k < |blocks| ==> blocks[k] == Strip(parts[2 * k + 1])
    {
      blocks := blocks + [Strip(parts[i])];
      i := i + 2;
    }
    return Ok(blocks);
  }

  /** One fenced block after some prose: its body is extracted whole, tag and all. */
  lemma FencedBodyKeptWhole(prose: string, body: string)
    requires NoBacktick(prose) && NoBacktick(body)
    ensures CountFences(prose + Fence + body + Fence) == 2
    ensures Strip(SplitOnFence(prose + Fence + body + Fence)[1]) == Strip(body)
  {
    SplitOnFenceOfFencedBlock(prose, body);
  }

  /** `{"snippet_id", "version", "code", "diff_summary"}` as made by `version_snippets`. */
  datatype VersionedSnippet = VersionedSnippet(snippetId: string, version: nat, code: string, diffSummary: string)

  /** `unified_diff`'s default number of context lines. */
  const DefaultContext: nat := 3

  /**
   * `version_snippets`: snippet i becomes version i + 1 with the i-th fresh
   * id, keeps its code, and carries the line diff from the snippet before it
   * (none for the first).
   */
  method VersionSnippets(snippets: seq<string>, freshId: nat -> string, diff: Differ)
    returns (results: seq<VersionedSnippet>)
    ensures |results| == |snippets|
    ensures forall i :: 0 <= i < |results| ==>
      results[i].version == i + 1 && results[i].code == snippets[i] && results[i].snippetId == freshId(i)
    ensures |results| > 0 ==> results[0].diffSummary == ""
    ensures forall i :: 0 < i < |results| ==>
      results[i].diffSummary == DiffText(diff, snippets[i - 1], snippets[i], DefaultContext)
  {
    results := [];
    var i := 0;
    while i < |snippets|
      invariant 0 <= i <= |snippets|
      invariant |results| == i
      invariant forall j :: 0 <= j < i ==>
        results[j].version == j + 1 && results[j].code == snippets[j] && results[j].snippetId == freshId(j)
      invariant i > 0 ==> results[0].diffSummary == ""
      invariant forall j :: 0 < j < i ==>
        results[j].diffSummary == DiffText(diff, snippets[j - 1], snippets[j], DefaultContext)
    {
      var diffSummary := "";
      if i > 0 {
        diffSummary := DiffText(diff, snippets[i - 1], snippets[i], DefaultContext);
      }
      results := results + [VersionedSnippet(freshId(i), i + 1, snippets[i], diffSummary)];
      i := i + 1;
    }
  }

  /**
   * With a real unified diff, a later version has an empty diff summary
   * exactly when its lines equal those of the version before it.
   */
  lemma VersionDiffEmptyIffUnchanged(snippets: seq<string>, diff: Differ, results: seq<VersionedSnippet>, i: nat)
    requires IsUnifiedDiff(diff)
    requires |results| == |snippets| && 0 < i < |results|
    requires results[i].diffSummary == DiffText(diff, snippets[i - 1], snippets[i], DefaultContext)
    ensures results[i].diffSummary == "" <==> SplitLines(snippets[i - 1]) == SplitLines(snippets[i])
  {
    DiffTextEmptyIffSameLines(diff, snippets[i - 1], snippets[i], DefaultContext);
  }

  /** What `ast.parse` does with a snippet. */
  datatype ParseOutcome =
    | Parsed
    | SyntaxErr(message: string)    // `str(e)` of the SyntaxError
    | OtherErr(message: string)     // `str(e)` of any other exception

  /** The dict `validate_snippet` returns; `output` is present only on success. */
  datatype Verdict = Verdict(status: string, output: Option<string>, error: string)

  /** The stripped snippet ends in a character that opens something still unfinished. */
  predicate EndsOpen(s: string) {
    s != [] && s[|s| - 1] in {'=', ':', '(', '['}
  }

  /**
   * `validate_snippet`: "valid" when the parser accepts; "partial" for a
   * syntax error that looks like an unfinished snippet; "invalid" for any
   * other error. No exception escapes.
   */
  function ValidateSnippet(snippet: string, parse: string -> ParseOutcome): (v: Verdict)
    ensures v.status in {"valid", "partial", "invalid"}
    ensures v.status == "valid" <==> parse(snippet).Parsed?
    ensures v.status == "valid" ==> v.output == Some("Parsed successfully.") && v.error == ""
    ensures v.status == "partial" <==>
      parse(snippet).SyntaxErr?
      && (Contains(parse(snippet).message, "unexpected EOF") || EndsOpen(Strip(snippet)))
    ensures v.status == "partial" ==> v == Verdict("partial", None, "incomplete snippet")
    ensures v.status == "invalid" && parse(snippet).SyntaxErr? ==>
      v == Verdict("invalid", None, "Syntax error: " + parse(snippet).message)
    ensures parse(snippet).OtherErr? ==> v == Verdict("invalid", None, parse(snippet).message)
  {
    match parse(snippet)
    case Parsed => Verdict("valid", Some("Parsed successfully."), "")
    case SyntaxErr(message) =>
      if Contains(message, "unexpected EOF") || EndsOpen(Strip(snippet)) then
        Verdict("partial", None, "incomplete snippet")
      else
        Verdict("invalid", None, "Syntax error: " + message)
    case OtherErr(message) => Verdict("invalid", None, message)
  }

  /**
   * A snippet whose stripped text ends in `=`, `:`, `(` or `[` is never
   * "invalid" because of a syntax error, whatever the parser's message.
   */
  lemma OpenEndedSnippetIsPartial(snippet: string, parse: string -> ParseOutcome)
    requires parse(snippet).SyntaxErr?
    requires EndsOpen(Strip(snippet))
    ensures ValidateSnippet(snippet, parse).status == "partial"
    ensures ValidateSnippet(snippet, parse).error == "incomplete snippet"
  {
  }

  /**
   * The intent `reconcile_intent` reads in the user's words, case-insensitively:
   * "final" beats "maybe", which beats "nevermind"; otherwise "unknown".
   */
  function Reconciliation(userText: string): (r: string)
    ensures r in {"final accepted", "draft", "rejected", "unknown"}
    ensures r == "final accepted" <==> Contains(Lower(userText), "final")
    ensures r == "draft" <==> !Contains(Lower(userText), "final") && Contains(Lower(userText), "maybe")
    ensures r == "rejected" <==>
      !Contains(Lower(userText), "final") && !Contains(Lower(userText), "maybe")
      && Contains(Lower(userText), "nevermind")
  {
    var text := Lower(userText);
    if Contains(text, "final") then "final accepted"
    else if Contains(text, "maybe") then "draft"
    else if Contains(text, "nevermind") then "rejected"
    else "unknown"
  }

  lemma {:induction false} LowerIdempotent(s: string)
    ensures Lower(Lower(s)) == Lower(s)
  {
    var l := Lower(s);
    assert forall i :: 0 <= i < |s| ==> LowerChar(l[i]) == l[i];
  }

  /** Changing the case of the user's words does not change the intent read from them. */
  lemma ReconciliationIgnoresCase(userText: string)
    ensures Reconciliation(Lower(userText)) == Reconciliation(userText)
  {
    LowerIdempotent(userText);
  }

  /** A dict that is updated in place and handed back to the caller. */
  class SnippetData {
    var entries: map<string, Value>

    constructor (entries: map<string, Value>)
      ensures this.entries == entries
    {
      this.entries := entries;
    }
  }

  /**
   * `reconcile_intent`: writes the intent under both `user_intent` and
   * `reconciliation`, leaves every other key as it was, and returns the very
   * dict it was given.
   */
  method ReconcileIntent(snippetData: SnippetData, userText: string) returns (same: SnippetData)
    modifies snippetData
    ensures same == snippetData
    ensures snippetData.entries ==
      old(snippetData.entries)["user_intent" := Str(Reconciliation(userText))]["reconciliation" := Str(Reconciliation(userText))]
    ensures forall k :: k in old(snippetData.entries) && k != "user_intent" && k != "reconciliation" ==>
      k in snippetData.entries && snippetData.entries[k] == old(snippetData.entries)[k]
  {
    var reconciliation := Reconciliation(userText);
    snippetData.entries := snippetData.entries["user_intent" := Str(reconciliation)]["reconciliation" := Str(reconciliation)];
    return snippetData;
  }

  /** `s.get("reconciliation") == "final accepted"`. */
  predicate IsFinalAccepted(s: map<string, Value>) {
    Get(s, "reconciliation") == Some(Str("final accepted"))
  }

  /** The position of the last finally accepted snippet, searching from the end. */
  function LastFinal(results: seq<map<string, Value>>): (r: Option<nat>)
    ensures r.Some? ==> r.value < |results| && IsFinalAccepted(results[r.value])
    ensures r.Some? ==> forall j :: r.value < j < |results| ==> !IsFinalAccepted(results[j])
    ensures r.None? <==> forall j :: 0 <= j < |results| ==> !IsFinalAccepted(results[j])
  {
    if results == [] then None
    else if IsFinalAccepted(results[|results| - 1]) then Some(|results| - 1)
    else LastFinal(results[..|results| - 1])
  }

  /** `{"final": ..., "all_snippets": ...}`. */
  datatype SessionSummary = SessionSummary(final: map<string, Value>, allSnippets: seq<map<string, Value>>)

  /**
   * `summarize_session`: the last snippet accepted as final, or `{}` when
   * there is none; every snippet is passed through unchanged.
   */
  function SummarizeSession(snippetResults: seq<map<string, Value>>): (r: SessionSummary)
    ensures r.allSnippets == snippetResults
    ensures r.final == map[] <==> forall j :: 0 <= j < |snippetResults| ==> !IsFinalAccepted(snippetResults[j])
    ensures r.final != map[] ==> LastFinal(snippetResults).Some?
    ensures r.final != map[] ==> r.final == snippetResults[LastFinal(snippetResults).value]
  {
    match LastFinal(snippetResults)
    case None => SessionSummary(map[], snippetResults)
    case Some(i) =>
      assert "reconciliation" in snippetResults[i];
      SessionSummary(snippetResults[i], snippetResults)
  }
}
