/**
 * `difflib.unified_diff` seen from the outside. Its hunk layout is not part
 * of this model: a differ is any function of the two line lists and the
 * context width, and `IsUnifiedDiff` states the two facts the pipeline
 * relies on: it yields nothing exactly when the line lists are equal, and
 * otherwise it starts with the `--- ` / `+++ ` header lines (with
 * `lineterm=""` and no file names).
 */
module Difflib {
  import opened Text

  type Differ = (seq<string>, seq<string>, nat) -> seq<string>

  ghost predicate IsUnifiedDiff(diff: Differ) {
    && (forall a, b, n :: diff(a, b, n) == [] <==> a == b)
    && (forall a, b, n :: diff(a, b, n) != [] ==>
          |diff(a, b, n)| >= 2 && diff(a, b, n)[0] == "--- " && diff(a, b, n)[1] == "+++ ")
  }

  /** The contract above can be met, so results that rely on it are not vacuous. */
  lemma UnifiedDiffContractIsSatisfiable()
    ensures exists diff: Differ :: IsUnifiedDiff(diff)
  {
    var headerOnly: Differ := (a, b, n) => if a == b then [] else ["--- ", "+++ "];
    assert IsUnifiedDiff(headerOnly);
  }

  /** `"\n".join(unified_diff(before.splitlines(), after.splitlines(), lineterm="", n=context))`. */
  function DiffText(diff: Differ, before: string, after: string, context: nat): string {
    Join("\n", diff(SplitLines(before), SplitLines(after), context))
  }

  /**
   * The joined diff is empty exactly when the two texts have the same lines;
   * when it is not empty it starts with the `--- ` header, so it can never be
   * mistaken for a sentinel such as "No change".
   */
  lemma DiffTextEmptyIffSameLines(diff: Differ, before: string, after: string, context: nat)
    requires IsUnifiedDiff(diff)
    ensures DiffText(diff, before, after, context) == "" <==> SplitLines(before) == SplitLines(after)
    ensures DiffText(diff, before, after, context) != "" ==> "--- " <= DiffText(diff, before, after, context)
  {
    var lines := diff(SplitLines(before), SplitLines(after), context);
    if lines != [] {
      JoinStartsWithFirst("\n", lines);
    }
  }
}
