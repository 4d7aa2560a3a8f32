/**
 * The first-valid-wins reconciler: every block becomes a versioned snippet;
 * the first block whose validation status is "valid" becomes the final
 * snippet, and every other block is rejected with a reason ("Extra snippet"
 * for a later valid block, "Invalid Python" for any other). A templated
 * summary and the quality flags complete the recap.
 */
module BackendDiffCheck {
  import opened PyValues
  import opened Text
  import opened Schema

  /** A block dict as handed over by the classifier and validator. */
  type Block = map<string, Value>

  /** `f"snippet_{i+1}"`: the id of a block that brings none. */
  function DefaultId(i: nat): string {
    "snippet_" + NatToString(i + 1)
  }

  /** The validation of a block that brings none. */
  const UnknownValidation: map<string, Value> := map["status" := Str("unknown")]

  /**
   * The snippet built for block `i`: version i + 1, the block's id or the
   * default one, its content or "", the diff summary "No change" and its
   * validation or `{"status": "unknown"}`. A field of the wrong type is
   * refused by the record.
   */
  function SnippetFor(block: Block, i: nat): (r: Result<EnrichedSnippet>)
    ensures r.Ok? <==> Builds(block)
    ensures r.Err? ==> r.error.ValidationError?
    ensures r.Ok? ==> r.value.version == i + 1
  {
    var id := GetOr(block, "snippet_id", Str(DefaultId(i)));
    var content := GetOr(block, "content", Str(""));
    var validation := GetOr(block, "validation", Dict(UnknownValidation));
    if !id.Str? then Err(ValidationError("snippet_id"))
    else if !content.Str? then Err(ValidationError("content"))
    else if !validation.Dict? then Err(ValidationError("validation"))
    else Ok(EnrichedSnippet(i + 1, id.s, content.s, NoChange, validation.entries))
  }

  /**
   * The fields of a built snippet: the block's own id, content and validation
   * where it has them, the defaults otherwise, and always "No change".
   */
  lemma SnippetForFields(block: Block, i: nat)
    requires Builds(block)
    ensures SnippetFor(block, i).value.diffSummary == NoChange
    ensures SnippetFor(block, i).value.snippetId == (if "snippet_id" in block then block["snippet_id"].s else DefaultId(i))
    ensures SnippetFor(block, i).value.content == (if "content" in block then block["content"].s else "")
    ensures SnippetFor(block, i).value.validation ==
      (if "validation" in block then block["validation"].entries else UnknownValidation)
  {
  }

  /** The block's own fields, where present, have the types the record declares. */
  predicate Builds(block: Block) {
    && ("snippet_id" in block ==> block["snippet_id"].Str?)
    && ("content" in block ==> block["content"].Str?)
    && ("validation" in block ==> block["validation"].Dict?)
  }

  /** `block.get("validation", {}).get("status") == "valid"`. */
  predicate IsValid(block: Block) {
    match GetOr(block, "validation", Dict(map[]))
    case Dict(v) => Get(v, "status") == Some(Str("valid"))
    case _ => false
  }

  /** The reason a rejected block is given. */
  function Reason(block: Block): string {
    if IsValid(block) then "Extra snippet" else "Invalid Python"
  }

  /** `snippet.validation["reason"] = reason`. */
  function WithReason(s: EnrichedSnippet, reason: string): (r: EnrichedSnippet)
  {
    s.(validation := s.validation["reason" := Str(reason)])
  }

  /** Every block among the first `n` makes a snippet. */
  predicate AllBuild(blocks: seq<Block>, n: nat)
    requires n <= |blocks|
  {
    forall j :: 0 <= j < n ==> Builds(blocks[j])
  }

  /** The first of the first `n` blocks that the record refuses. */
  function FirstBad(blocks: seq<Block>, n: nat): (r: Option<nat>)
    requires n <= |blocks|
    ensures r.None? <==> AllBuild(blocks, n)
    ensures r.Some? ==> r.value < n && !Builds(blocks[r.value])
    ensures r.Some? ==> AllBuild(blocks, r.value)
  {
    if n == 0 then None
    else match FirstBad(blocks, n - 1)
      case Some(k) => Some(k)
      case None => if !Builds(blocks[n - 1]) then Some(n - 1) else None
  }

  /** The first valid block among the first `n`. */
  function FirstValid(blocks: seq<Block>, n: nat): (r: Option<nat>)
    requires n <= |blocks|
    ensures r.None? <==> forall j :: 0 <= j < n ==> !IsValid(blocks[j])
    ensures r.Some? ==> r.value < n && IsValid(blocks[r.value])
    ensures r.Some? ==> forall j :: 0 <= j < r.value ==> !IsValid(blocks[j])
  {
    if n == 0 then None
    else match FirstValid(blocks, n - 1)
      case Some(k) => Some(k)
      case None => if IsValid(blocks[n - 1]) then Some(n - 1) else None
  }

  function Snip(blocks: seq<Block>, j: nat): EnrichedSnippet
    requires j < |blocks| && Builds(blocks[j])
  {
    SnippetFor(blocks[j], j).value
  }

  /** The final snippet after `n` blocks: the first valid one's. */
  function FinalAfter(blocks: seq<Block>, n: nat): Option<EnrichedSnippet>
    requires n <= |blocks| && AllBuild(blocks, n)
  {
    match FirstValid(blocks, n)
    case None => None
    case Some(k) => Some(Snip(blocks, k))
  }

  /** The rejected snippets after `n` blocks: every block but the first valid one, with its reason. */
  function RejectedAfter(blocks: seq<Block>, n: nat): seq<EnrichedSnippet>
    requires n <= |blocks| && AllBuild(blocks, n)
  {
    if n == 0 then []
    else
      RejectedAfter(blocks, n - 1)
      + (if FirstValid(blocks, n) == Some(n - 1) then [] else [WithReason(Snip(blocks, n - 1), Reason(blocks[n - 1]))])
  }

  const FoundPrefix := "What You Built: Found valid code snippet. "
  const NotFoundPrefix := "What You Built: No valid code found. "

  /** The summary line: which template depends on whether a final snippet exists. */
  function Summary(found: bool, rejectedCount: nat): (r: string)
    ensures found ==> r == FoundPrefix + NatToString(rejectedCount) + " rejected versions."
    ensures !found ==> r == NotFoundPrefix + NatToString(rejectedCount) + " rejected versions."
  {
    (if found then FoundPrefix else NotFoundPrefix) + NatToString(rejectedCount) + " rejected versions."
  }

  /** Text framed by the same prefix and suffix is the same text. */
  lemma CancelFrame(p: string, a: string, b: string, x: string)
    requires p + a + x == p + b + x
    ensures a == b
  {
    assert |a| == |b|;
    assert a == (p + a + x)[|p|..|p| + |a|];
    assert b == (p + b + x)[|p|..|p| + |b|];
  }

  /** The two templates part after "What You Built: ". */
  lemma SummaryMarksOutcome(found: bool, count: nat)
    ensures |Summary(found, count)| > 16
    ensures Summary(found, count)[16] == if found then 'F' else 'N'
  {
  }

  /**
   * The summary line tells whether a final snippet was found and exactly how
   * many versions were rejected: different outcomes give different lines.
   */
  lemma SummaryDetermines(found: bool, count: nat, found': bool, count': nat)
    requires Summary(found, count) == Summary(found', count')
    ensures found == found' && count == count'
  {
    var x := " rejected versions.";
    if found != found' {
      SummaryMarksOutcome(found, count);
      SummaryMarksOutcome(found', count');
      assert false;
    }
    var p := if found then FoundPrefix else NotFoundPrefix;
    CancelFrame(p, NatToString(count), NatToString(count'), x);
    NatToStringInjective(count, count');
  }

  const FailedFlag := "\U{26A0}\U{FE0F} Some code blocks failed validation"
  const ValidFlag := "\U{2705} Valid code snippet identified"
  const NoValidFlag := "\U{274C} No valid code found"

  /** The recap the pass ends with, as a value. */
  function Reconciled(blocks: seq<Block>, sessionId: string): Result<Recap> {
    match FirstBad(blocks, |blocks|)
    case Some(k) => Err(SnippetFor(blocks[k], k).error)
    case None =>
      var final := FinalAfter(blocks, |blocks|);
      var rejected := RejectedAfter(blocks, |blocks|);
      Ok(Recap(sessionId, final, rejected, Summary(final.Some?, |rejected|), [], Flags(final.Some?, rejected != [])))
  }

  /** The quality flags: a failure flag when something was rejected, then whether valid code was found. */
  function Flags(hasFinal: bool, anyRejected: bool): (flags: seq<string>)
    ensures |flags| == if anyRejected then 2 else 1
    ensures (FailedFlag in flags) == anyRejected
    ensures flags[|flags| - 1] == if hasFinal then ValidFlag else NoValidFlag
  {
    (if anyRejected then [FailedFlag] else []) + [if hasFinal then ValidFlag else NoValidFlag]
  }

  /** The first valid block becomes the final snippet; nothing is rejected. */
  lemma AdvanceFinal(blocks: seq<Block>, i: nat)
    requires i < |blocks| && AllBuild(blocks, i) && Builds(blocks[i])
    requires FinalAfter(blocks, i).None? && IsValid(blocks[i])
    ensures AllBuild(blocks, i + 1)
    ensures FinalAfter(blocks, i + 1) == Some(Snip(blocks, i))
    ensures RejectedAfter(blocks, i + 1) == RejectedAfter(blocks, i)
  {
  }

  /** A later valid block is rejected as an extra snippet; the final one stays. */
  lemma AdvanceExtra(blocks: seq<Block>, i: nat)
    requires i < |blocks| && AllBuild(blocks, i) && Builds(blocks[i])
    requires FinalAfter(blocks, i).Some? && IsValid(blocks[i])
    ensures AllBuild(blocks, i + 1)
    ensures FinalAfter(blocks, i + 1) == FinalAfter(blocks, i)
    ensures RejectedAfter(blocks, i + 1) == RejectedAfter(blocks, i) + [WithReason(Snip(blocks, i), "Extra snippet")]
  {
  }

  /** A block that is not valid is rejected as invalid Python; the final one stays. */
  lemma AdvanceInvalid(blocks: seq<Block>, i: nat)
    requires i < |blocks| && AllBuild(blocks, i) && Builds(blocks[i])
    requires !IsValid(blocks[i])
    ensures AllBuild(blocks, i + 1)
    ensures FinalAfter(blocks, i + 1) == FinalAfter(blocks, i)
    ensures RejectedAfter(blocks, i + 1) == RejectedAfter(blocks, i) + [WithReason(Snip(blocks, i), "Invalid Python")]
  {
  }

  /** After `n` blocks that all build, the pass holds their final and rejected snippets. */
  predicate PassState(blocks: seq<Block>, n: nat, final: Option<EnrichedSnippet>, rejected: seq<EnrichedSnippet>) {
    n <= |blocks| && AllBuild(blocks, n) && final == FinalAfter(blocks, n) && rejected == RejectedAfter(blocks, n)
  }

  /** When every block builds, the recap holds the final and rejected snippets of the whole pass. */
  lemma ReconciledAfterPass(blocks: seq<Block>, sessionId: string)
    requires AllBuild(blocks, |blocks|)
    ensures var final, rejected := FinalAfter(blocks, |blocks|), RejectedAfter(blocks, |blocks|);
      Reconciled(blocks, sessionId) == Ok(Recap(sessionId, final, rejected, Summary(final.Some?, |rejected|), [],
        Flags(final.Some?, rejected != [])))
  {
  }

  /** A refused block after blocks that all build is the first refused one. */
  lemma FirstBadAt(blocks: seq<Block>, i: nat)
    requires i < |blocks| && AllBuild(blocks, i) && !Builds(blocks[i])
    ensures FirstBad(blocks, |blocks|) == Some(i)
  {
    assert FirstBad(blocks, i + 1) == Some(i);
    FirstBadStable(blocks, i + 1, |blocks|);
  }

  /**
   * `diff_code_blocks`: one pass that keeps the first valid snippet as final
   * and rejects every other one with its reason, then the summary and the
   * quality flags, handed back as the recap's dump. `freshSessionId` is the
   * id the recap draws for itself.
   */
  method DiffCodeBlocks(blocks: seq<Block>, freshSessionId: string) returns (r: Result<map<string, Value>>)
    ensures r.Ok? <==> Reconciled(blocks, freshSessionId).Ok?
    ensures r.Err? ==> r.error == Reconciled(blocks, freshSessionId).error
    ensures r.Ok? ==> r.value == DumpRecap(Reconciled(blocks, freshSessionId).value)
  {
    var final: Option<EnrichedSnippet> := None;
    var rejected: seq<EnrichedSnippet> := [];
    var i := 0;
    while i < |blocks|
      invariant 0 <= i <= |blocks| && PassState(blocks, i, final, rejected)
    {
      var block := blocks[i];
      var built := SnippetFor(block, i);
      if built.Err? {
        FirstBadAt(blocks, i);
        return Err(built.error);
      }
      var snippet := built.value;
      assert snippet == Snip(blocks, i);
      if IsValid(block) {
        if final.None? {
          AdvanceFinal(blocks, i);
          final := Some(snippet);
        } else {
          AdvanceExtra(blocks, i);
          rejected := rejected + [WithReason(snippet, "Extra snippet")];
        }
      } else {
        AdvanceInvalid(blocks, i);
        rejected := rejected + [WithReason(snippet, "Invalid Python")];
      }
      assert PassState(blocks, i + 1, final, rejected);
      i := i + 1;
    }
    var summary := Summary(final.Some?, |rejected|);
    var qualityFlags: seq<string> := [];
    if rejected != [] {
      qualityFlags := qualityFlags + [FailedFlag];
    }
    assert qualityFlags == if rejected != [] then [FailedFlag] else [];
    if final.Some? {
      qualityFlags := qualityFlags + [ValidFlag];
    } else {
      qualityFlags := qualityFlags + [NoValidFlag];
    }
    assert qualityFlags == Flags(final.Some?, rejected != []);
    var recap := Recap(freshSessionId, final, rejected, summary, [], qualityFlags);
    ReconciledAfterPass(blocks, freshSessionId);
    assert Reconciled(blocks, freshSessionId) == Ok(recap);
    return Ok(DumpRecap(recap));
  }

  /** Once a refused block is found, looking further does not change which one is first. */
  lemma {:induction false} FirstBadStable(blocks: seq<Block>, m: nat, n: nat)
    requires m <= n <= |blocks|
    requires FirstBad(blocks, m).Some?
    ensures FirstBad(blocks, n) == FirstBad(blocks, m)
  {
    if n > m {
      FirstBadStable(blocks, m, n - 1);
    }
  }

  /**
   * The pass fails exactly when some block has a field of the wrong type,
   * and then with the record's complaint about the first such block.
   */
  lemma ReconciledRefuses(blocks: seq<Block>, sessionId: string)
    ensures Reconciled(blocks, sessionId).Ok? <==> forall j :: 0 <= j < |blocks| ==> Builds(blocks[j])
    ensures Reconciled(blocks, sessionId).Err? ==>
      Reconciled(blocks, sessionId).error.ValidationError?
      && exists k :: 0 <= k < |blocks| && !Builds(blocks[k]) && AllBuild(blocks, k)
  {
    if Reconciled(blocks, sessionId).Err? {
      var k := FirstBad(blocks, |blocks|).value;
      assert !Builds(blocks[k]) && AllBuild(blocks, k);
    }
  }

  /**
   * The final snippet after `n` blocks is that of the first valid block
   * (its version is its position plus one), and there is none exactly when
   * no block is valid.
   */
  lemma FinalIsFirstValid(blocks: seq<Block>, n: nat)
    requires n <= |blocks| && AllBuild(blocks, n)
    ensures FinalAfter(blocks, n).None? <==> forall j :: 0 <= j < n ==> !IsValid(blocks[j])
    ensures FinalAfter(blocks, n).Some? ==>
      var k := FinalAfter(blocks, n).value.version - 1;
      && 0 <= k < n
      && FinalAfter(blocks, n).value == Snip(blocks, k)
      && IsValid(blocks[k])
      && forall j :: 0 <= j < k ==> !IsValid(blocks[j])
  {
    if FirstValid(blocks, n).Some? {
      var k := FirstValid(blocks, n).value;
      assert FinalAfter(blocks, n).value.version == k + 1;
    }
  }

  /** The recap carries the final snippet and the rejected ones of the whole pass. */
  lemma ReconciledPass(blocks: seq<Block>, sessionId: string)
    requires Reconciled(blocks, sessionId).Ok?
    ensures AllBuild(blocks, |blocks|)
    ensures Reconciled(blocks, sessionId).value.final == FinalAfter(blocks, |blocks|)
    ensures Reconciled(blocks, sessionId).value.rejectedVersions == RejectedAfter(blocks, |blocks|)
  {
  }

  /** A rejected snippet: that of the block its version names, with that block's reason. */
  predicate RejectedEntry(blocks: seq<Block>, e: EnrichedSnippet) {
    && 1 <= e.version <= |blocks|
    && Builds(blocks[e.version - 1])
    && e == WithReason(Snip(blocks, e.version - 1), Reason(blocks[e.version - 1]))
  }

  /** All but the final block are rejected. */
  lemma {:induction false} RejectedCount(blocks: seq<Block>, n: nat)
    requires n <= |blocks| && AllBuild(blocks, n)
    ensures |RejectedAfter(blocks, n)| == n - (if FinalAfter(blocks, n).Some? then 1 else 0)
  {
    if n > 0 {
      RejectedCount(blocks, n - 1);
    }
  }

  /** Every snippet of `rs` is a rejected entry of one of the first `n` blocks. */
  predicate EntriesUpTo(blocks: seq<Block>, rs: seq<EnrichedSnippet>, n: nat) {
    (forall k :: 0 <= k < |rs| ==> RejectedEntry(blocks, rs[k])) && VersionsAtMost(rs, n)
  }

  /** No snippet of `rs` has a version above `n`. */
  predicate VersionsAtMost(rs: seq<EnrichedSnippet>, n: int) {
    forall k :: 0 <= k < |rs| ==> rs[k].version <= n
  }

  /** The versions of `rs` strictly increase. */
  predicate Increasing(rs: seq<EnrichedSnippet>) {
    forall k, l :: 0 <= k < l < |rs| ==> rs[k].version < rs[l].version
  }

  lemma EntriesAppend(blocks: seq<Block>, rs: seq<EnrichedSnippet>, e: EnrichedSnippet, n: nat)
    requires 0 < n
    requires EntriesUpTo(blocks, rs, n - 1) && RejectedEntry(blocks, e) && e.version == n
    ensures EntriesUpTo(blocks, rs + [e], n)
  {
    forall k | 0 <= k < |rs + [e]| ensures RejectedEntry(blocks, (rs + [e])[k]) && (rs + [e])[k].version <= n {
      if k < |rs| { assert (rs + [e])[k] == rs[k]; }
    }
  }

  lemma EntriesWiden(blocks: seq<Block>, rs: seq<EnrichedSnippet>, n: nat)
    requires 0 < n && EntriesUpTo(blocks, rs, n - 1)
    ensures EntriesUpTo(blocks, rs, n)
  {
  }

  lemma IncreasingAppend(rs: seq<EnrichedSnippet>, e: EnrichedSnippet, bound: int)
    requires Increasing(rs) && VersionsAtMost(rs, bound) && bound < e.version
    ensures Increasing(rs + [e])
  {
    forall k, l | 0 <= k < l < |rs + [e]| ensures (rs + [e])[k].version < (rs + [e])[l].version {
      assert (rs + [e])[k] == rs[k];
      if l < |rs| { assert (rs + [e])[l] == rs[l]; }
    }
  }

  /** Each rejected snippet is that of one of the first `n` blocks, with its reason. */
  lemma {:induction false} RejectedEntries(blocks: seq<Block>, n: nat)
    requires n <= |blocks| && AllBuild(blocks, n)
    ensures EntriesUpTo(blocks, RejectedAfter(blocks, n), n)
  {
    if n > 0 {
      RejectedEntries(blocks, n - 1);
      var r' := RejectedAfter(blocks, n - 1);
      if FirstValid(blocks, n) != Some(n - 1) {
        var e := WithReason(Snip(blocks, n - 1), Reason(blocks[n - 1]));
        assert RejectedAfter(blocks, n) == r' + [e];
        assert e.version == n;
        assert RejectedEntry(blocks, e);
        EntriesAppend(blocks, r', e, n);
      } else {
        assert RejectedAfter(blocks, n) == r';
        EntriesWiden(blocks, r', n);
      }
    }
  }

  /** No snippet rejected after `n` blocks has a version above `n`. */
  lemma RejectedVersionsBounded(blocks: seq<Block>, n: nat)
    requires n <= |blocks| && AllBuild(blocks, n)
    ensures VersionsAtMost(RejectedAfter(blocks, n), n)
  {
    RejectedEntries(blocks, n);
  }

  /** The rejected snippets come in input order: their versions strictly increase. */
  lemma {:induction false} RejectedInOrder(blocks: seq<Block>, n: nat)
    requires n <= |blocks| && AllBuild(blocks, n)
    ensures Increasing(RejectedAfter(blocks, n))
  {
    if n > 0 {
      RejectedInOrder(blocks, n - 1);
      RejectedVersionsBounded(blocks, n - 1);
      var r' := RejectedAfter(blocks, n - 1);
      if FirstValid(blocks, n) != Some(n - 1) {
        var e := WithReason(Snip(blocks, n - 1), Reason(blocks[n - 1]));
        assert RejectedAfter(blocks, n) == r' + [e];
        assert e.version == n;
        IncreasingAppend(r', e, n - 1);
      } else {
        assert RejectedAfter(blocks, n) == r';
      }
    }
  }

  /** Some snippet of `rs` has version `v`. */
  predicate HasVersion(rs: seq<EnrichedSnippet>, v: int) {
    exists k :: 0 <= k < |rs| && rs[k].version == v
  }

  /** Version v is among the rejected exactly when block v - 1 is not the final one. */
  lemma {:induction false} RejectedAllButFinal(blocks: seq<Block>, n: nat)
    requires n <= |blocks| && AllBuild(blocks, n)
    ensures AllButFinal(blocks, n)
  {
    if n > 0 {
      RejectedAllButFinal(blocks, n - 1);
      if FirstValid(blocks, n) == Some(n - 1) {
        FinalBlockNotRejected(blocks, n);
      } else {
        OtherBlockRejected(blocks, n);
      }
    }
  }

  /** Among the first `n` blocks, every one but the first valid one is rejected (by version). */
  predicate AllButFinal(blocks: seq<Block>, n: nat)
    requires n <= |blocks| && AllBuild(blocks, n)
  {
    forall v :: 1 <= v <= n ==> (HasVersion(RejectedAfter(blocks, n), v) <==> FirstValid(blocks, n) != Some(v - 1))
  }

  lemma HasVersionAppend(rs: seq<EnrichedSnippet>, e: EnrichedSnippet, v: int)
    ensures HasVersion(rs + [e], v) <==> HasVersion(rs, v) || e.version == v
  {
    if HasVersion(rs, v) {
      var k :| 0 <= k < |rs| && rs[k].version == v;
      assert (rs + [e])[k].version == v;
    }
    if e.version == v {
      assert (rs + [e])[|rs|].version == v;
    }
  }

  /** The step of `RejectedAllButFinal` where block n - 1 becomes the final one. */
  lemma FinalBlockNotRejected(blocks: seq<Block>, n: nat)
    requires 0 < n <= |blocks| && AllBuild(blocks, n)
    requires FirstValid(blocks, n) == Some(n - 1)
    requires AllButFinal(blocks, n - 1)
    ensures AllButFinal(blocks, n)
  {
    var r := RejectedAfter(blocks, n);
    assert r == RejectedAfter(blocks, n - 1);
    assert FirstValid(blocks, n - 1).None?;
    RejectedVersionsBounded(blocks, n - 1);
    forall v | 1 <= v <= n
      ensures HasVersion(r, v) <==> FirstValid(blocks, n) != Some(v - 1)
    {
      if v == n {
        assert !HasVersion(r, n);
      } else {
        assert HasVersion(r, v);
      }
    }
  }

  /** The step of `RejectedAllButFinal` where block n - 1 is rejected. */
  lemma OtherBlockRejected(blocks: seq<Block>, n: nat)
    requires 0 < n <= |blocks| && AllBuild(blocks, n)
    requires FirstValid(blocks, n) != Some(n - 1)
    requires AllButFinal(blocks, n - 1)
    ensures AllButFinal(blocks, n)
  {
    var r' := RejectedAfter(blocks, n - 1);
    var e := WithReason(Snip(blocks, n - 1), Reason(blocks[n - 1]));
    assert RejectedAfter(blocks, n) == r' + [e];
    assert e.version == n;
    assert FirstValid(blocks, n) == FirstValid(blocks, n - 1);
    forall v | 1 <= v <= n
      ensures HasVersion(r' + [e], v) <==> FirstValid(blocks, n) != Some(v - 1)
    {
      HasVersionAppend(r', e, v);
    }
  }

  /**
   * The summary follows its template with the number of rejected snippets,
   * and the flags are the failure warning (only when something was
   * rejected) followed by exactly one of the found / not-found flags.
   */
  lemma RecapNotes(blocks: seq<Block>, sessionId: string)
    requires Reconciled(blocks, sessionId).Ok?
    ensures var recap := Reconciled(blocks, sessionId).value;
      && recap.sessionId == sessionId
      && recap.ahaMoments == []
      && recap.summary == Summary(recap.final.Some?, |recap.rejectedVersions|)
      && (|recap.qualityFlags| == 2 <==> recap.rejectedVersions != [])
      && (recap.rejectedVersions != [] ==> recap.qualityFlags[0] == FailedFlag)
      && |recap.qualityFlags| >= 1
      && recap.qualityFlags[|recap.qualityFlags| - 1] == (if recap.final.Some? then ValidFlag else NoValidFlag)
      && |recap.rejectedVersions| == |blocks| - (if recap.final.Some? then 1 else 0)
  {
    RejectedCount(blocks, |blocks|);
  }
}
