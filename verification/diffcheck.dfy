/**
 * The deduplicate / version / pick-last reconciler: code blocks are
 * deduplicated by content (first occurrence kept), numbered `snippet_1`,
 * `snippet_2`, ... with a line diff against the previous one, and the last
 * becomes final while all earlier ones are rejected.
 *
 * Blocks are dicts; their fields are dynamically typed, so the type errors
 * Python would raise on odd contents (an unhashable list, an int with no
 * `splitlines`, a text block with no `content`) are part of the model.
 */
module DiffCheck {
  import opened PyValues
  import opened Text
  import opened Difflib

  /** A classified block, `{"type": ..., "content": ...}` and any other keys. */
  type Block = map<string, Value>

  /** `snippet.get("content")`. */
  function Content(b: Block): Value {
    GetOr(b, "content", Null)
  }

  /** Content that deduplication keeps track of: truthy and hashable. */
  predicate Keyed(b: Block) {
    Truthy(Content(b)) && Hashable(Content(b))
  }

  /** Truthy content that cannot go into a set: a non-empty list or dict. */
  predicate Unhashable(b: Block) {
    Truthy(Content(b)) && !Hashable(Content(b))
  }

  /** The identity of a block's content inside the `seen` set. */
  function Key(b: Block): Value
    requires Keyed(b)
  {
    HashKey(Content(b))
  }

  /** The first block whose content makes `content in seen` raise. */
  function FirstUnhashable(s: seq<Block>): (r: Option<nat>)
    ensures r.None? <==> forall j :: 0 <= j < |s| ==> !Unhashable(s[j])
    ensures r.Some? ==> r.value < |s| && Unhashable(s[r.value])
    ensures r.Some? ==> forall j :: 0 <= j < r.value ==> !Unhashable(s[j])
  {
    if s == [] then None
    else if Unhashable(s[0]) then Some(0)
    else match FirstUnhashable(s[1..])
      case None => None
      case Some(k) => Some(k + 1)
  }

  /** The keys of the keyed blocks of `d`: the `seen` set after `d` was kept. */
  function Keys(d: seq<Block>): set<Value> {
    if d == [] then {}
    else Keys(d[..|d| - 1]) + (if Keyed(d[|d| - 1]) then {Key(d[|d| - 1])} else {})
  }

  /** The blocks deduplication keeps, for inputs that raise nothing. */
  function Dedup(s: seq<Block>): seq<Block> {
    if s == [] then []
    else
      var d := Dedup(s[..|s| - 1]);
      var b := s[|s| - 1];
      if Keyed(b) && Key(b) !in Keys(d) then d + [b] else d
  }

  /** `deduplicate_code_snippets` as a value: the first unhashable content raises. */
  function Deduplicated(s: seq<Block>): Result<seq<Block>> {
    match FirstUnhashable(s)
    case Some(k) => Err(TypeError("unhashable type: '" + TypeName(Content(s[k])) + "'"))
    case None => Ok(Dedup(s))
  }

  lemma KeysAppend(d: seq<Block>, b: Block)
    ensures Keys(d + [b]) == Keys(d) + (if Keyed(b) then {Key(b)} else {})
  {
    assert (d + [b])[..|d|] == d;
  }

  lemma DedupStep(s: seq<Block>, b: Block)
    ensures Dedup(s + [b]) == if Keyed(b) && Key(b) !in Keys(Dedup(s)) then Dedup(s) + [b] else Dedup(s)
  {
    assert (s + [b])[..|s|] == s;
  }

  /** `deduplicate_code_snippets`: one pass with a `seen` set. */
  method DeduplicateCodeSnippets(snippets: seq<Block>) returns (r: Result<seq<Block>>)
    ensures r == Deduplicated(snippets)
  {
    var seen: set<Value> := {};
    var unique: seq<Block> := [];
    var i := 0;
    while i < |snippets|
      invariant 0 <= i <= |snippets|
      invariant unique == Dedup(snippets[..i])
      invariant seen == Keys(unique)
      invariant forall j :: 0 <= j < i ==> !Unhashable(snippets[j])
    {
      var snippet := snippets[i];
      assert snippets[..i + 1] == snippets[..i] + [snippet];
      DedupStep(snippets[..i], snippet);
      var content := Content(snippet);
      if !Truthy(content) {
        i := i + 1;
        continue;
      }
      if !Hashable(content) {
        return Err(TypeError("unhashable type: '" + TypeName(content) + "'"));
      }
      var key := HashKey(content);
      if key in seen {
        i := i + 1;
        continue;
      }
      KeysAppend(unique, snippet);
      seen := seen + {key};
      unique := unique + [snippet];
      i := i + 1;
    }
    assert snippets[..i] == snippets;
    return Ok(unique);
  }

  /** Every kept block has truthy, hashable content. */
  lemma {:induction false} DedupKeyed(s: seq<Block>)
    ensures forall k :: 0 <= k < |Dedup(s)| ==> Keyed(Dedup(s)[k])
  {
    if s != [] {
      DedupKeyed(s[..|s| - 1]);
    }
  }

  /** A keyed block's key is among the keys of any sequence holding it. */
  lemma {:induction false} KeysContain(d: seq<Block>)
    ensures forall k :: 0 <= k < |d| && Keyed(d[k]) ==> Key(d[k]) in Keys(d)
  {
    if d != [] {
      var d' := d[..|d| - 1];
      KeysContain(d');
      forall k | 0 <= k < |d| && Keyed(d[k]) ensures Key(d[k]) in Keys(d) {
        if k < |d| - 1 { assert d[k] == d'[k]; }
      }
    }
  }

  /** The kept contents are pairwise distinct (as a Python set compares them). */
  lemma {:induction false} DedupDistinct(s: seq<Block>)
    ensures forall k :: 0 <= k < |Dedup(s)| ==> Keyed(Dedup(s)[k])
    ensures forall k, l :: 0 <= k < l < |Dedup(s)| ==> Key(Dedup(s)[k]) != Key(Dedup(s)[l])
  {
    DedupKeyed(s);
    if s != [] {
      var d' := Dedup(s[..|s| - 1]);
      DedupDistinct(s[..|s| - 1]);
      KeysContain(d');
      var d := Dedup(s);
      if d != d' {
        forall k, l | 0 <= k < l < |d| ensures Key(d[k]) != Key(d[l]) {
          assert d[k] == d'[k];
          if l < |d'| { assert d[l] == d'[l]; }
        }
      }
    }
  }

  /** Every keyed input block has its key among the kept ones. */
  lemma {:induction false} DedupCoversKeys(s: seq<Block>)
    ensures forall j :: 0 <= j < |s| && Keyed(s[j]) ==> Key(s[j]) in Keys(Dedup(s))
  {
    if s != [] {
      var s' := s[..|s| - 1];
      DedupCoversKeys(s');
      var d' := Dedup(s');
      if Dedup(s) != d' {
        KeysAppend(d', s[|s| - 1]);
      }
      forall j | 0 <= j < |s| && Keyed(s[j]) ensures Key(s[j]) in Keys(Dedup(s)) {
        if j < |s| - 1 { assert s[j] == s'[j]; }
      }
    }
  }

  /** The input positions of the kept blocks. */
  ghost function DedupOrigins(s: seq<Block>): seq<nat> {
    if s == [] then []
    else
      var b := s[|s| - 1];
      DedupOrigins(s[..|s| - 1]) + (if Keyed(b) && Key(b) !in Keys(Dedup(s[..|s| - 1])) then [|s| - 1] else [])
  }

  /** The kept blocks are an order-preserving subsequence of the input. */
  lemma {:induction false} DedupSubsequence(s: seq<Block>)
    ensures |DedupOrigins(s)| == |Dedup(s)|
    ensures forall k :: 0 <= k < |Dedup(s)| ==> DedupOrigins(s)[k] < |s| && Dedup(s)[k] == s[DedupOrigins(s)[k]]
    ensures forall k, l :: 0 <= k < l < |Dedup(s)| ==> DedupOrigins(s)[k] < DedupOrigins(s)[l]
  {
    if s != [] {
      var s' := s[..|s| - 1];
      DedupSubsequence(s');
      var o', d' := DedupOrigins(s'), Dedup(s');
      var o, d := DedupOrigins(s), Dedup(s);
      if d != d' {
        assert o == o' + [|s| - 1] && d == d' + [s[|s| - 1]];
        forall k | 0 <= k < |d| ensures o[k] < |s| && d[k] == s[o[k]] {
          if k < |d'| { assert s[o'[k]] == s'[o'[k]]; }
        }
      } else {
        assert o == o';
        forall k | 0 <= k < |d| ensures o[k] < |s| && d[k] == s[o[k]] {
          assert s[o'[k]] == s'[o'[k]];
        }
      }
    }
  }

  /** Block `j` carries truthy, hashable content no earlier block carries. */
  predicate FirstOf(s: seq<Block>, j: nat)
    requires j < |s|
  {
    Keyed(s[j]) && forall i :: 0 <= i < j && Keyed(s[i]) ==> Key(s[i]) != Key(s[j])
  }

  /** A key among the kept ones comes from some kept block. */
  lemma {:induction false} KeysFrom(d: seq<Block>, x: Value)
    requires x in Keys(d)
    ensures exists k :: 0 <= k < |d| && Keyed(d[k]) && Key(d[k]) == x
  {
    var d' := d[..|d| - 1];
    if x in Keys(d') {
      KeysFrom(d', x);
      var k :| 0 <= k < |d'| && Keyed(d'[k]) && Key(d'[k]) == x;
      assert d[k] == d'[k];
    } else {
      assert Keyed(d[|d| - 1]) && Key(d[|d| - 1]) == x;
    }
  }

  /** The last block is kept exactly when it is the first carrying its content. */
  lemma LastKeptIffFirst(s: seq<Block>)
    requires s != []
    ensures (Keyed(s[|s| - 1]) && Key(s[|s| - 1]) !in Keys(Dedup(s[..|s| - 1]))) <==> FirstOf(s, |s| - 1)
  {
    var s' := s[..|s| - 1];
    var b := s[|s| - 1];
    if Keyed(b) {
      if Key(b) in Keys(Dedup(s')) {
        KeysFrom(Dedup(s'), Key(b));
        DedupSubsequence(s');
        var k :| 0 <= k < |Dedup(s')| && Keyed(Dedup(s')[k]) && Key(Dedup(s')[k]) == Key(b);
        var i := DedupOrigins(s')[k];
        assert s[i] == s'[i];
      } else {
        DedupCoversKeys(s');
        forall i | 0 <= i < |s| - 1 && Keyed(s[i]) ensures Key(s[i]) != Key(b) {
          assert s[i] == s'[i];
        }
      }
    }
  }

  /**
   * A block is kept exactly when it is the first to carry its content:
   * later exact repeats, and blocks with missing or empty content, are dropped.
   */
  lemma {:induction false} DedupKeepsFirstOccurrences(s: seq<Block>)
    ensures forall j :: 0 <= j < |s| ==> (j in DedupOrigins(s) <==> FirstOf(s, j))
  {
    if s != [] {
      var s' := s[..|s| - 1];
      DedupKeepsFirstOccurrences(s');
      DedupSubsequence(s');
      LastKeptIffFirst(s);
      var o', o := DedupOrigins(s'), DedupOrigins(s);
      assert |s| - 1 !in o';
      forall j | 0 <= j < |s| ensures j in o <==> FirstOf(s, j) {
        if j < |s| - 1 {
          assert j in o <==> j in o';
          assert FirstOf(s, j) <==> FirstOf(s', j) by {
            assert s[j] == s'[j];
            assert forall i :: 0 <= i < j ==> s[i] == s'[i];
          }
        }
      }
    }
  }

  /** Deduplicating twice changes nothing more. */
  lemma {:induction false} DedupIdempotent(s: seq<Block>)
    ensures Dedup(Dedup(s)) == Dedup(s)
  {
    if s != [] {
      var d' := Dedup(s[..|s| - 1]);
      DedupIdempotent(s[..|s| - 1]);
      if Dedup(s) != d' {
        DedupStep(d', s[|s| - 1]);
      }
    }
  }

  /** So once a call succeeds, a second call on its result succeeds with the same list. */
  lemma DeduplicatedIdempotent(s: seq<Block>)
    requires Deduplicated(s).Ok?
    ensures Deduplicated(Deduplicated(s).value) == Deduplicated(s)
  {
    DedupKeyed(s);
    DedupIdempotent(s);
  }

  /** `{"version", "snippet_id", "content", "diff_summary"}`. */
  datatype Enriched = Enriched(version: int, snippetId: string, content: string, diffSummary: string)

  /** `add_versions` asks for two lines of context. */
  const VersionContext: nat := 2

  /** `"\n".join(diff) if diff else "No change"`. */
  function ChangeSummary(diff: Differ, before: string, after: string): string {
    var lines := diff(SplitLines(before), SplitLines(after), VersionContext);
    if lines == [] then "No change" else Join("\n", lines)
  }

  /** `snippet.get("content", "")`. */
  function Code(b: Block): Value {
    GetOr(b, "content", Str(""))
  }

  /** The first block whose code has no `splitlines`, i.e. is not a string. */
  function FirstNonStrCode(s: seq<Block>): (r: Option<nat>)
    ensures r.None? <==> forall j :: 0 <= j < |s| ==> Code(s[j]).Str?
    ensures r.Some? ==> r.value < |s| && !Code(s[r.value]).Str?
    ensures r.Some? ==> forall j :: 0 <= j < r.value ==> Code(s[j]).Str?
  {
    if s == [] then None
    else if !Code(s[0]).Str? then Some(0)
    else match FirstNonStrCode(s[1..])
      case None => None
      case Some(k) => Some(k + 1)
  }

  /** The code block `i` is compared with: the previous block's, or "" for the first. */
  function PrevCode(s: seq<Block>, i: nat): string
    requires i <= |s|
    requires forall j :: 0 <= j < i ==> Code(s[j]).Str?
  {
    if i == 0 then "" else Code(s[i - 1]).s
  }

  /** The enriched form of block `i`. */
  function Enrich(s: seq<Block>, i: nat, diff: Differ): Enriched
    requires i < |s|
    requires forall j :: 0 <= j <= i ==> Code(s[j]).Str?
  {
    Enriched(i + 1, "snippet_" + NatToString(i + 1), Code(s[i]).s, ChangeSummary(diff, PrevCode(s, i), Code(s[i]).s))
  }

  /** The enriched forms of the first `n` blocks. */
  function EnrichAll(s: seq<Block>, n: nat, diff: Differ): (r: seq<Enriched>)
    requires n <= |s|
    requires forall j :: 0 <= j < n ==> Code(s[j]).Str?
    ensures |r| == n
    ensures forall i :: 0 <= i < n ==> r[i] == Enrich(s, i, diff)
  {
    if n == 0 then [] else EnrichAll(s, n - 1, diff) + [Enrich(s, n - 1, diff)]
  }

  lemma EnrichAllNext(s: seq<Block>, n: nat, diff: Differ)
    requires n < |s|
    requires forall j :: 0 <= j <= n ==> Code(s[j]).Str?
    ensures EnrichAll(s, n + 1, diff) == EnrichAll(s, n, diff) + [Enrich(s, n, diff)]
  {
  }

  /** `add_versions` as a value: the first non-string content raises. */
  function Versioned(s: seq<Block>, diff: Differ): Result<seq<Enriched>> {
    match FirstNonStrCode(s)
    case Some(k) => Err(AttributeError("'" + TypeName(Code(s[k])) + "' object has no attribute 'splitlines'"))
    case None => Ok(EnrichAll(s, |s|, diff))
  }

  /** `add_versions`: one pass carrying the previous code. */
  method AddVersions(snippets: seq<Block>, diff: Differ) returns (r: Result<seq<Enriched>>)
    ensures r == Versioned(snippets, diff)
  {
    var result: seq<Enriched> := [];
    var prevCode := "";
    var i := 0;
    while i < |snippets|
      invariant 0 <= i <= |snippets|
      invariant forall j :: 0 <= j < i ==> Code(snippets[j]).Str?
      invariant result == EnrichAll(snippets, i, diff)
      invariant prevCode == PrevCode(snippets, i)
    {
      var code := Code(snippets[i]);
      if !code.Str? {
        return Err(AttributeError("'" + TypeName(code) + "' object has no attribute 'splitlines'"));
      }
      var enriched := Enriched(i + 1, "snippet_" + NatToString(i + 1), code.s, ChangeSummary(diff, prevCode, code.s));
      assert enriched == Enrich(snippets, i, diff);
      EnrichAllNext(snippets, i, diff);
      result := result + [enriched];
      prevCode := code.s;
      i := i + 1;
    }
    return Ok(result);
  }

  /**
   * A successful versioning keeps length and order: block i becomes version
   * i + 1 named `snippet_{i+1}`, with its content copied.
   */
  lemma VersionedNumbering(s: seq<Block>, diff: Differ)
    requires Versioned(s, diff).Ok?
    ensures |Versioned(s, diff).value| == |s|
    ensures forall i :: 0 <= i < |s| ==>
      Versioned(s, diff).value[i].version == i + 1
      && Versioned(s, diff).value[i].snippetId == "snippet_" + NatToString(i + 1)
      && Code(s[i]) == Str(Versioned(s, diff).value[i].content)
  {
  }

  /** Different numbers give different `snippet_{n}` names. */
  lemma SnippetIdInjective(m: nat, n: nat)
    requires "snippet_" + NatToString(m) == "snippet_" + NatToString(n)
    ensures m == n
  {
    var p := "snippet_";
    assert NatToString(m) == (p + NatToString(m))[|p|..];
    assert NatToString(n) == (p + NatToString(n))[|p|..];
    NatToStringInjective(m, n);
  }

  /** The snippet names of a successful versioning are pairwise distinct. */
  lemma VersionedIdsDistinct(s: seq<Block>, diff: Differ)
    requires Versioned(s, diff).Ok?
    ensures forall i, j :: 0 <= i < j < |Versioned(s, diff).value| ==>
      Versioned(s, diff).value[i].snippetId != Versioned(s, diff).value[j].snippetId
  {
    VersionedNumbering(s, diff);
    NumberedIdsDistinct(Versioned(s, diff).value);
  }

  lemma NumberedIdsDistinct(e: seq<Enriched>)
    requires forall i :: 0 <= i < |e| ==> e[i].snippetId == "snippet_" + NatToString(i + 1)
    ensures forall i, j :: 0 <= i < j < |e| ==> e[i].snippetId != e[j].snippetId
  {
    forall i, j | 0 <= i < j < |e| ensures e[i].snippetId != e[j].snippetId {
      if e[i].snippetId == e[j].snippetId {
        SnippetIdInjective(i + 1, j + 1);
      }
    }
  }

  /**
   * With a real unified diff, "No change" appears exactly when a block has
   * the same lines as the one before it (the first is compared with "").
   */
  lemma NoChangeIffSameLines(s: seq<Block>, diff: Differ, i: nat)
    requires IsUnifiedDiff(diff)
    requires Versioned(s, diff).Ok? && i < |s|
    ensures Versioned(s, diff).value[i].diffSummary == "No change" <==>
      SplitLines(PrevCode(s, i)) == SplitLines(Versioned(s, diff).value[i].content)
  {
    var e := Versioned(s, diff).value[i];
    var lines := diff(SplitLines(PrevCode(s, i)), SplitLines(e.content), VersionContext);
    if lines != [] {
      JoinStartsWithFirst("\n", lines);
      assert lines[0][0] == '-';
      assert Join("\n", lines)[0] == '-';
    }
  }

  /** Python's line split ignores one final newline after a line's last character. */
  lemma {:induction false} SplitLinesIgnoresFinalNewline(s: string)
    requires s != [] && !IsLineBreak(s[|s| - 1])
    ensures SplitLines(s + "\n") == SplitLines(s)
  {
    var t := s + "\n";
    assert t[0] == s[0];
    if |s| == 1 {
      assert t[1..] == "\n" && s[1..] == "";
      assert "\n"[1..] == "";
      assert SplitLines("\n") == [""];
      assert SplitLines(s[1..]) == [];
      assert SplitLines(s) == [[s[0]]];
      assert [t[0]] + "" == [s[0]];
      assert SplitLines(t) == [[s[0]]];
    } else if s[0] == '\r' && s[1] == '\n' {
      assert t[2..] == s[2..] + "\n";
      SplitLinesIgnoresFinalNewline(s[2..]);
    } else {
      assert t[1..] == s[1..] + "\n";
      SplitLinesIgnoresFinalNewline(s[1..]);
    }
  }

  /** So adding only a trailing newline to a snippet is reported as "No change". */
  lemma TrailingNewlineIsNoChange(diff: Differ, code: string)
    requires IsUnifiedDiff(diff)
    requires code != [] && !IsLineBreak(code[|code| - 1])
    ensures ChangeSummary(diff, code, code + "\n") == "No change"
  {
    SplitLinesIgnoresFinalNewline(code);
  }

  /** `{"final": ..., "rejected": [...], "text_summary": ...}`. */
  datatype RecapOutput = RecapOutput(final: Enriched, rejected: seq<Enriched>, textSummary: Value)

  /** The stand-in final snippet when there is no code at all. */
  const NoSnippet := Enriched(0, "none", "", "No snippets available")

  predicate AllDicts(items: seq<Value>) {
    forall i :: 0 <= i < |items| ==> items[i].Dict?
  }

  function Dicts(items: seq<Value>): (r: seq<Block>)
    requires AllDicts(items)
    ensures |r| == |items| && forall i :: 0 <= i < |items| ==> r[i] == items[i].entries
  {
    if items == [] then [] else [items[0].entries] + Dicts(items[1..])
  }

  /** `[b for b in blocks if b.get("type") == t]`. */
  function OfType(bs: seq<Block>, t: string): (r: seq<Block>)
    ensures forall b :: b in r <==> b in bs && Get(b, "type") == Some(Str(t))
  {
    if bs == [] then []
    else (if Get(bs[0], "type") == Some(Str(t)) then [bs[0]] else []) + OfType(bs[1..], t)
  }

  /** A single block is kept exactly when its type matches. */
  lemma OfTypeOne(x: Block, t: string)
    ensures OfType([x], t) == if Get(x, "type") == Some(Str(t)) then [x] else []
  {
    assert [x][1..] == [];
  }

  /**
   * A concatenation is filtered part by part. With `OfTypeOne` this pins the
   * filter down: the kept blocks are the matching input blocks in input
   * order, each as often as it occurs.
   */
  lemma {:induction false} OfTypeAppend(a: seq<Block>, b: seq<Block>, t: string)
    ensures OfType(a + b, t) == OfType(a, t) + OfType(b, t)
  {
    if a == [] {
      assert a + b == b;
    } else {
      assert (a + b)[1..] == a[1..] + b;
      OfTypeAppend(a[1..], b, t);
    }
  }

  /** The output built from the versioned snippets: the last is final, all earlier ones rejected. */
  function PickLast(enriched: seq<Enriched>, textSummary: Value): RecapOutput {
    RecapOutput(
      if enriched == [] then NoSnippet else enriched[|enriched| - 1],
      if |enriched| > 1 then enriched[..|enriched| - 1] else [],
      textSummary)
  }

  /**
   * Numbered snippets are split into a final one, the highest numbered, and
   * the rejected ones before it, in order; nothing is lost or reordered.
   */
  lemma PickLastPartition(e: seq<Enriched>, textSummary: Value)
    requires forall i :: 0 <= i < |e| ==> e[i].version == i + 1
    ensures e == [] ==> PickLast(e, textSummary).final == NoSnippet && PickLast(e, textSummary).rejected == []
    ensures e != [] ==> PickLast(e, textSummary).rejected + [PickLast(e, textSummary).final] == e
    ensures e != [] ==> PickLast(e, textSummary).final.version == |e|
    ensures forall k :: 0 <= k < |PickLast(e, textSummary).rejected| ==>
      PickLast(e, textSummary).rejected[k].version == k + 1 < PickLast(e, textSummary).final.version
  {
    if e != [] {
      assert e[..|e| - 1] + [e[|e| - 1]] == e;
    }
  }

  /** `text_blocks[-1]["content"] if text_blocks else ""`. */
  function TextSummary(texts: seq<Block>): (r: Result<Value>)
    ensures texts == [] ==> r == Ok(Str(""))
    ensures texts != [] ==> (r.Ok? <==> "content" in texts[|texts| - 1])
    ensures texts != [] && r.Ok? ==> r.value == texts[|texts| - 1]["content"]
    ensures r.Err? ==> r == Err(KeyError("content"))
  {
    if texts == [] then Ok(Str(""))
    else if "content" in texts[|texts| - 1] then Ok(texts[|texts| - 1]["content"])
    else Err(KeyError("content"))
  }

  /** `diff_code_blocks`: check the input, then dedup, version and pick the last. */
  function DiffCodeBlocks(blocks: Value, diff: Differ): (r: Result<RecapOutput>)
    ensures !blocks.List? || !AllDicts(blocks.items) ==> r == Err(ValueError("blocks must be a list of dicts"))
  {
    if !blocks.List? || !AllDicts(blocks.items) then Err(ValueError("blocks must be a list of dicts"))
    else
      var bs := Dicts(blocks.items);
      match Deduplicated(OfType(bs, "code"))
      case Err(e) => Err(e)
      case Ok(deduped) =>
        match Versioned(deduped, diff)
        case Err(e) => Err(e)
        case Ok(enriched) =>
          match TextSummary(OfType(bs, "text"))
          case Err(e) => Err(e)
          case Ok(textSummary) =>
            Ok(PickLast(enriched, textSummary))
  }

  /** A successful call, taken apart: each stage succeeded and the output is built from their values. */
  lemma DiffCodeBlocksStages(blocks: Value, diff: Differ)
    requires DiffCodeBlocks(blocks, diff).Ok?
    ensures blocks.List? && AllDicts(blocks.items)
    ensures var bs := Dicts(blocks.items);
      && FirstUnhashable(OfType(bs, "code")).None?
      && Versioned(Dedup(OfType(bs, "code")), diff).Ok?
      && TextSummary(OfType(bs, "text")).Ok?
    ensures var bs := Dicts(blocks.items);
      var enriched := Versioned(Dedup(OfType(bs, "code")), diff).value;
      DiffCodeBlocks(blocks, diff).value == PickLast(enriched, TextSummary(OfType(bs, "text")).value)
  {
  }

  /**
   * On success the distinct code contents, versioned, are split into the
   * final snippet (the last, with the highest version) and the rejected ones
   * (all earlier, in order); with no code the final is the stand-in and
   * nothing is rejected.
   */
  lemma DiffCodeBlocksPartition(blocks: Value, diff: Differ)
    requires DiffCodeBlocks(blocks, diff).Ok?
    ensures blocks.List? && AllDicts(blocks.items)
    ensures var deduped := Dedup(OfType(Dicts(blocks.items), "code"));
      var r := DiffCodeBlocks(blocks, diff).value;
      && Versioned(deduped, diff).Ok?
      && (deduped == [] ==> r.final == NoSnippet && r.rejected == [])
      && (deduped != [] ==> r.rejected + [r.final] == Versioned(deduped, diff).value)
      && (deduped != [] ==> r.final.version == |deduped| && Code(deduped[|deduped| - 1]) == Str(r.final.content))
      && (forall k :: 0 <= k < |r.rejected| ==> r.rejected[k].version == k + 1 < r.final.version)
  {
    DiffCodeBlocksStages(blocks, diff);
    var deduped := Dedup(OfType(Dicts(blocks.items), "code"));
    VersionedNumbering(deduped, diff);
    PickLastPartition(Versioned(deduped, diff).value, TextSummary(OfType(Dicts(blocks.items), "text")).value);
  }

  /** On success the text summary is the last text block's content, or "" when there is none. */
  lemma DiffCodeBlocksTextSummary(blocks: Value, diff: Differ)
    requires DiffCodeBlocks(blocks, diff).Ok?
    ensures blocks.List? && AllDicts(blocks.items)
    ensures var texts := OfType(Dicts(blocks.items), "text");
      && (texts == [] ==> DiffCodeBlocks(blocks, diff).value.textSummary == Str(""))
      && (texts != [] ==> ("content" in texts[|texts| - 1]
            && DiffCodeBlocks(blocks, diff).value.textSummary == texts[|texts| - 1]["content"]))
  {
    DiffCodeBlocksStages(blocks, diff);
  }
}
