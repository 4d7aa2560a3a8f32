# Ariadne Clew snippet reconciliation, modelled in Dafny

Ariadne Clew turns a chat transcript into a recap of what was built. Several
steps do that:
- A fence classifier splits the transcript into typed `text` and `code` blocks.
- An extractor and versioner turn the code into numbered snippets, each
  diffed against the one before.
- A validator grades each snippet with a Python parser.
- A reconciler partitions the snippets into one final snippet and the
  rejected rest.
- A formatter renders the recap as a few human-readable lines plus the
  recap's own dump.

Small validators and stores sit beside the pipeline:
- the check of a structured classification result;
- an in-process recap store and its one-line summary;
- the sanitisation of cache keys into file paths.

The repository has several diverging variants of these steps. Each is
modelled as it is written, in its own module:

| module | models |
|---|---|
| `PyValues` (values.dfy) | Python's dynamic values as a datatype (`str`, `int`, `bool`, `None`, `list`, `dict`); their truthiness, type names, hashability and set-equality key (`1 == True`); `dict.get`; the error kinds the code raises; `Result` and `Option` |
| `Text` (text.dfy) | the `str` methods the code calls: `strip` (Python's whitespace set), `count("```")`, `split("```")`, `lower` (ASCII), `join`, `splitlines` (Python's line boundaries); decimal rendering of integers |
| `Difflib` (difflib.dfy) | `difflib.unified_diff` as a function parameter, with a contract: it is empty exactly when the two line lists are equal, and otherwise starts with the `---`/`+++` header |
| `LambdaClassifier` | `lambda_classifier.py`: the input-length guard and `classify_blocks` |
| `CodeHandler` | `code_handler.py`: extraction, versioning, validation, intent tagging and session summary |
| `DiffCheck` | `diffcheck.py`: deduplication, `snippet_N` versioning, last-wins partition |
| `Schema` | `backend/schema.py`: the `EnrichedSnippet` and `Recap` records, with their defaults, their closed field set, and their dump and validation |
| `BackendDiffCheck` | `backend/diffcheck.py`: the first-valid-wins reconciler |
| `RecapFormatter` | `backend/recap_formatter.py` |
| `ClaudeSchema` | `schema.py`: `validate_claude_result` |
| `MemoryHandler` | `memory_handler.py`: the fallback store, as a class, and `summarize_memory` |
| `BackendMemoryHandler` | `backend/memory_handler.py`: `_key_to_path` |

How the Python code maps to Dafny:
- Code that loops and appends is written as methods with loop invariants.
  This covers fence extraction, versioning, deduplication, `add_versions`,
  the classifier loop, the reconciler loop and the formatter. Most of these
  methods are proved equal to a specification function, and the properties
  are lemmas about that function. `CodeHandler.ExtractCodeBlocks` and
  `CodeHandler.VersionSnippets` are specified directly by their own
  postconditions.
- Code that only computes is written as functions and lemmas.
- A dict updated in place is a class field: the dict handed to
  `reconcile_intent`, and the fallback `_memory_store`.
- A Python exception is an `Err` result carrying the exception's kind and
  message.
- The parser (`ast.parse`), the diff engine and `uuid.uuid4` are parameters.

## Model

| member | source | states |
|---|---|---|
| LambdaClassifier.ValidateInputLength | lambda_classifier.py:15-25 | passes exactly when the text has at most 100000 characters; otherwise a ValueError whose message starts "Input too long (<length> chars). " |
| LambdaClassifier.InputLimitIsInclusive | lambda_classifier.py:12-20 | a text of exactly 100000 characters passes and one of 100001 is refused |
| LambdaClassifier.ChatLogText | lambda_classifier.py:42-45 | a string is used as given; a list of strings is joined with "\n"; a list holding a non-string fails with a TypeError, as `str.join` does; any other input is ValueError("chat_log must be a string or list of strings") |
| LambdaClassifier.LetterRun | lambda_classifier.py:53 | the `[a-zA-Z]*` part of the fence pattern: the longest run of ASCII letters at the start |
| LambdaClassifier.AfterLabelKeepsFences | lambda_classifier.py:47-53 | swallowing letters and one newline after a fence never removes a fence, so the fence count and the split agree |
| LambdaClassifier.FenceSplit | lambda_classifier.py:53 | the regex split yields one more piece than there are fences |
| LambdaClassifier.FenceSplitAtFence | lambda_classifier.py:53 | a fence ends the current piece; the split goes on after the letter run and at most one newline that follow it |
| LambdaClassifier.StrippedAt | lambda_classifier.py:56-57 | the content considered at position i is piece i stripped |
| LambdaClassifier.TypePieces | lambda_classifier.py:55-63 | the loop's result is exactly the typed, non-blank, stripped pieces in order |
| LambdaClassifier.ClassifyBlocks | lambda_classifier.py:28-63 | the whole function: input error, odd-fence refusal, or the typed blocks of the split |
| LambdaClassifier.OddFenceCountRefused | lambda_classifier.py:47-50 | an odd fence count gives ValueError("Unmatched code fence: found N backticks.") and no blocks |
| LambdaClassifier.PiecesShape | lambda_classifier.py:55-61 | there are no more blocks than pieces, and every block's content is non-empty and stripped |
| LambdaClassifier.PiecesOrigins | lambda_classifier.py:55-61 | each block is the stripped piece it came from, typed by that piece's position parity, so dropped pieces never shift later types |
| LambdaClassifier.PiecesOriginsNonBlank | lambda_classifier.py:57-59 | a piece yields a block exactly when its stripped text is non-empty |
| LambdaClassifier.BalancedLogClassified | lambda_classifier.py:47-63 | an even fence count gives Ok; there are at most fence count + 1 blocks; each is non-empty and stripped; each is its origin piece typed by parity; origins strictly increase (transcript order); every non-blank piece is kept |
| LambdaClassifier.FencedBlockPieces | lambda_classifier.py:53 | prose, fence, letter tag, body, fence splits into [prose, body less one leading newline, ""]: the tag is swallowed |
| LambdaClassifier.FencedBlockClassified | lambda_classifier.py:53-61 | such a transcript gives at most a text block for the prose and a code block for the body without its tag and first newline, so a tag glued to the code is lost with the fence |
| LambdaClassifier.UnterminatedFenceRefused | lambda_classifier.py:47-50 | prose with a single fence is refused with "found 1 backticks." |
| Text.StripTrims | lambda_classifier.py:57 | `strip` removes a leading and a trailing run of whitespace and nothing else: the result is a slice s[i..j] of the input with only whitespace before i and after j, and it neither starts nor ends with whitespace |
| Text.StripEmptyIffBlank | lambda_classifier.py:57-59 | a piece strips to nothing exactly when it is all whitespace |
| Text.StripIdempotent | code_handler.py:31 | stripping a stripped string changes nothing |
| Text.SplitOnFence | code_handler.py:29 | `split("```")` yields one more piece than `count("```")` |
| Text.SplitOnFenceOfFencedBlock | code_handler.py:29 | prose, fence, body, fence (no backticks in prose or body) splits into [prose, body, ""] |
| CodeHandler.ExtractCodeBlocks | code_handler.py:24-32 | an odd fence count is ValueError("Unmatched code fence detected."); otherwise fence count / 2 blocks, block k being split piece 2k+1 stripped, empty ones included |
| CodeHandler.FencedBodyKeptWhole | code_handler.py:29-31 | one fenced block yields its whole body stripped, language tag included |
| CodeHandler.VersionSnippets | code_handler.py:35-54 | same length and order; element i has version i+1, the i-th fresh id and the input code; element 0 has diff "" and element i > 0 the joined line diff of snippet i-1 against snippet i with 3 lines of context |
| CodeHandler.VersionDiffEmptyIffUnchanged | code_handler.py:39-46 | for i > 0 the diff summary is empty exactly when the two snippets have the same lines |
| CodeHandler.ValidateSnippet | code_handler.py:57-81 | "valid" with output "Parsed successfully." and error "" exactly when the parse succeeds; "partial" / "incomplete snippet" exactly for a syntax error mentioning "unexpected EOF" or a stripped snippet ending in = : ( [; any other syntax error is "invalid" with "Syntax error: " + message; any other exception is "invalid" with its message |
| CodeHandler.OpenEndedSnippetIsPartial | code_handler.py:66-71 | a syntax error on a snippet ending in = : ( or [ is always "partial", whatever the message |
| CodeHandler.Reconciliation | code_handler.py:86-93 | "final accepted" exactly when the lower-cased text contains "final"; "draft" when it contains "maybe" but not "final"; "rejected" when it contains "nevermind" and neither of the others; else "unknown" |
| CodeHandler.ReconciliationIgnoresCase | code_handler.py:86-90 | lower-casing the user's text first does not change the intent |
| CodeHandler.SnippetData.constructor | code_handler.py:84 | the snippet dict object starts with the given entries |
| CodeHandler.ReconcileIntent | code_handler.py:84-99 | writes the intent under both `user_intent` and `reconciliation`, keeps every other key, and returns the same dict object |
| CodeHandler.LastFinal | code_handler.py:104-108 | the last position whose `reconciliation` is "final accepted"; none exactly when no snippet has it |
| CodeHandler.SummarizeSession | code_handler.py:102-113 | `final` is the last finally accepted snippet, or {} when there is none; `all_snippets` is the input unchanged |
| Difflib.DiffTextEmptyIffSameLines | code_handler.py:41-46 | a joined unified diff is "" exactly when the line lists are equal, and otherwise starts with "--- " |
| DiffCheck.DeduplicateCodeSnippets | diffcheck.py:28-48 | the loop returns the deduplicated list; a truthy unhashable content (list or dict) is a TypeError naming its type, as the `in seen` test raises |
| DiffCheck.DedupKeyed | diffcheck.py:42-44 | blocks with a missing or empty content are dropped |
| DiffCheck.DedupDistinct | diffcheck.py:43-46 | the kept contents are pairwise distinct (under Python equality, where 1 == True) |
| DiffCheck.DedupCoversKeys | diffcheck.py:41-46 | every truthy content of the input is represented in the output |
| DiffCheck.DedupSubsequence | diffcheck.py:41-48 | the output is an order-preserving subsequence of the input |
| DiffCheck.DedupKeepsFirstOccurrences | diffcheck.py:43-46 | an input position is kept exactly when it is the first occurrence of its truthy content |
| DiffCheck.DedupIdempotent | diffcheck.py:28-48 | deduplicating twice is deduplicating once |
| DiffCheck.DeduplicatedIdempotent | diffcheck.py:28-48 | the same for the whole function, error path included |
| DiffCheck.AddVersions | diffcheck.py:51-82 | the loop returns the versioned list; a non-string content fails as `.splitlines()` does |
| DiffCheck.VersionedNumbering | diffcheck.py:64-79 | same length; element i has version i+1, id "snippet_{i+1}" and the block's content |
| DiffCheck.VersionedIdsDistinct | diffcheck.py:76 | the snippet ids are pairwise distinct |
| DiffCheck.NoChangeIffSameLines | diffcheck.py:62-80 | the diff summary is "No change" exactly when the content has the same lines as the previous content ("" for element 0) |
| DiffCheck.TrailingNewlineIsNoChange | diffcheck.py:66-78 | adding a final newline to a snippet is reported as "No change" |
| DiffCheck.OfTypeOne | diffcheck.py:101-102 | a single block is kept exactly when its `type` is the given string |
| DiffCheck.OfTypeAppend | diffcheck.py:101-102 | filtering a concatenation filters each part in turn; with the one-block case, the kept blocks are the matching input blocks in input order, each as often as it occurs |
| DiffCheck.DiffCodeBlocks | diffcheck.py:98-99 | a non-list, or a list holding a non-dict, is ValueError("blocks must be a list of dicts") |
| DiffCheck.PickLastPartition | diffcheck.py:107-116 | with no snippets, final is the sentinel (0, "none", "", "No snippets available") and rejected is []; otherwise rejected + [final] is the whole list, final has the highest version and the rejected versions are 1, 2, ... in order |
| DiffCheck.DiffCodeBlocksStages | diffcheck.py:98-118 | a successful run is: only code blocks, deduplicated, versioned, then split into last and rest, with the text summary beside them |
| DiffCheck.DiffCodeBlocksPartition | diffcheck.py:101-116 | final is the last deduplicated code block versioned, rejected all earlier ones in order, or the sentinel and [] when there is no code |
| DiffCheck.DiffCodeBlocksTextSummary | diffcheck.py:102-117 | text_summary is the last text block's content, or "" when there is none (a last text block without content raises KeyError, so a successful run always has it) |
| Schema.ParseSnippet | backend/schema.py:7-15 | accepted exactly when version is an int and snippet_id and content are strings (and the optional fields well typed); diff_summary defaults to "No change" and validation to {}, and when present they are taken as given |
| Schema.SnippetRoundTrip | backend/schema.py:7-15 | validating a dumped snippet gives the snippet back |
| Schema.ParseRecap | backend/schema.py:18-29 | a field outside the six declared ones is refused; a missing session_id takes the fresh id, final defaults to absent, the lists to [] and summary to ""; a present field is taken as given: session_id and summary as strings, final as None or a snippet built from its dict, rejected_versions as snippets built from each dict, the two note lists as lists of strings |
| Schema.DumpRecap | backend/schema.py:18-29 | the dump has exactly the six declared fields |
| Schema.RecapRoundTrip | backend/schema.py:18-29 | validating a dumped recap gives the recap back |
| Schema.EmptyRecapDefaults | backend/schema.py:22-27 | an empty input gives the fresh id, no final, [] lists and summary "" |
| BackendDiffCheck.SnippetFor | backend/diffcheck.py:16-22 | block i builds a snippet with version i+1 exactly when its own fields have the declared types; otherwise a ValidationError |
| BackendDiffCheck.SnippetForFields | backend/diffcheck.py:18-21 | the id is the block's or "snippet_{i+1}", the content the block's or "", diff_summary "No change", validation the block's or {"status": "unknown"} |
| BackendDiffCheck.FirstValid | backend/diffcheck.py:24-26 | the first block whose validation status is "valid" |
| BackendDiffCheck.AdvanceFinal | backend/diffcheck.py:24-26 | the first valid block becomes final and nothing is rejected |
| BackendDiffCheck.AdvanceExtra | backend/diffcheck.py:27-29 | a valid block after the final one is rejected with reason "Extra snippet"; final stays |
| BackendDiffCheck.AdvanceInvalid | backend/diffcheck.py:30-32 | a block that is not valid is rejected with reason "Invalid Python"; final stays |
| BackendDiffCheck.SummaryDetermines | backend/diffcheck.py:34-38 | the summary line tells whether a final snippet was found and exactly how many versions were rejected: two different outcomes never give the same line |
| BackendDiffCheck.Flags | backend/diffcheck.py:40-46 | the failure flag exactly when something was rejected, then exactly one of the valid / no-valid flags |
| BackendDiffCheck.ReconciledAfterPass | backend/diffcheck.py:34-54 | after the pass, the recap holds its final and rejected snippets, the summary, aha_moments [] and the flags |
| BackendDiffCheck.FirstBadAt | backend/diffcheck.py:15-22 | the pass stops at the first block the record refuses |
| BackendDiffCheck.DiffCodeBlocks | backend/diffcheck.py:7-54 | the loop's result is the dump of the reconciled recap, or the record's complaint about the first refused block |
| BackendDiffCheck.ReconciledRefuses | backend/diffcheck.py:16-22 | the pass fails exactly when some block has a field of the wrong type |
| BackendDiffCheck.FinalIsFirstValid | backend/diffcheck.py:24-26 | final is absent exactly when no block is valid; otherwise it is the snippet of the first valid block, and later blocks never replace it |
| BackendDiffCheck.ReconciledPass | backend/diffcheck.py:15-54 | a successful recap's final and rejected lists are those of the whole pass |
| BackendDiffCheck.RejectedCount | backend/diffcheck.py:15-32 | the number rejected is the number of blocks, less one when there is a final snippet |
| BackendDiffCheck.RejectedEntries | backend/diffcheck.py:27-32 | each rejected snippet is the snippet of one block, with that block's reason |
| BackendDiffCheck.RejectedInOrder | backend/diffcheck.py:15-32 | the rejected snippets are in input order (strictly increasing versions) |
| BackendDiffCheck.RejectedAllButFinal | backend/diffcheck.py:15-32 | version v is rejected exactly when block v-1 is not the final one: every block lands in exactly one place |
| BackendDiffCheck.RecapNotes | backend/diffcheck.py:34-54 | the recap has the given session id, aha_moments [], the templated summary, the flags in order, and as many rejected as blocks minus the final one |
| RecapFormatter.HumanLines | backend/recap_formatter.py:7-24 | 3 to 6 lines: the session line; the selected / not-found line (selected exactly when final has non-empty content); the rejected count, aha and flags lines exactly when their lists are non-empty; the summary last |
| RecapFormatter.FormatRecap | backend/recap_formatter.py:5-26 | human_readable is those lines joined with "\n", and raw_json is the recap's dump |
| RecapFormatter.LineMarks | backend/recap_formatter.py:8-24 | each line starts with its own emoji |
| RecapFormatter.OptionalLinesPresence | backend/recap_formatter.py:15-22 | the third line is the rejected count exactly when something was rejected; the line before the last is the flags exactly when there are flags |
| RecapFormatter.LinesHaveNoBreak | backend/recap_formatter.py:8-24 | no line holds a line boundary when the session id, summary, aha moments and flags hold none |
| RecapFormatter.HumanReadableSplitsBack | backend/recap_formatter.py:26 | under the same condition, splitting human_readable into lines gives back exactly the lines |
| Text.SplitLinesOfJoin | backend/recap_formatter.py:26 | joining lines that hold no line boundary, the last of them non-empty, with "\n" and splitting the result into lines gives them back |
| Text.NatToStringInjective | diffcheck.py:76 | different numbers render as different decimal strings |
| ClaudeSchema.FirstMissing | schema.py:43-45 | the first required key, in list order, that the input lacks |
| ClaudeSchema.FirstNonList | schema.py:51-60 | the first listed field, in order, whose value is not a list |
| ClaudeSchema.ListFieldsAreRequired | schema.py:32-58 | every field checked for being a list is also a required key, so the type check never meets a missing key |
| ClaudeSchema.ValidateClaudeResult | schema.py:31-61 | True exactly when all nine keys are present, session_id is a non-empty string, timestamp a string and the six fields lists; never False; every failure is a ValueError |
| ClaudeSchema.HeaderFieldsReported | schema.py:47-50 | with every key present, a session_id that is not a non-empty string gives ValueError("Invalid session_id"); otherwise a timestamp that is not a string gives ValueError("Invalid timestamp") |
| ClaudeSchema.MissingKeyFirst | schema.py:43-45 | a missing key is reported before any type check, naming the first missing key |
| ClaudeSchema.NonListFieldReported | schema.py:51-60 | the first non-list field in order is the one reported |
| ClaudeSchema.ExtraKeysIgnored | schema.py:31-61 | keys outside the nine never change the outcome |
| ClaudeSchema.SummaryTypeUnchecked | schema.py:40-60 | summary is required but its value's type is never checked |
| MemoryHandler.MemoryStore.constructor | memory_handler.py:15 | the fallback store starts out empty |
| MemoryHandler.MemoryStore.StoreMemory | memory_handler.py:17-30 | a string id and a dict recap are stored under the id, replacing any earlier one, and the id is returned; a retrieve then gives the recap back; other ids are untouched; any other input is ValueError("Invalid session_id or recap format") with the store unchanged |
| MemoryHandler.MemoryStore.RetrieveMemory | memory_handler.py:32-43 | a non-string id is ValueError("Invalid session_id"); otherwise the recap stored under the id, or None when there is none |
| MemoryHandler.SummarizeMemory | memory_handler.py:45-60 | "No memory found..." exactly for a non-dict or empty recap; "No snippets were stored..." exactly when snippets is missing or falsy; otherwise the sentence naming the last snippet's version, or "Memory content was unreadable." when it has none |
| MemoryHandler.LastSnippetVersionNamed | memory_handler.py:54-60 | a last snippet with an int version is named "(v<version>)"; one without a version makes the memory unreadable |
| BackendMemoryHandler.Sanitize | backend/memory_handler.py:18 | same length; each character is kept when it is a letter, digit, '-' or '_', and replaced by '_' otherwise |
| BackendMemoryHandler.SanitizedIsSafe | backend/memory_handler.py:18 | a sanitised name holds only kept characters, so no '/' and no '.' |
| BackendMemoryHandler.SanitizeIdempotent | backend/memory_handler.py:18 | sanitising twice is sanitising once |
| BackendMemoryHandler.SanitizeFixesExactlyAllowed | backend/memory_handler.py:18 | a name is unchanged exactly when all of its characters are kept |
| BackendMemoryHandler.KeyToPath | backend/memory_handler.py:16-24 | .cache/<key>.json without a session (None or ""), .cache/<session>/<key>.json with one, both names sanitised |
| BackendMemoryHandler.PathStaysInCache | backend/memory_handler.py:16-24 | no component below the cache directory holds a '/', and the session directory is a non-empty name without '.' |

## Behaviour worth knowing

- In `lambda_classifier.py:53` every fence, closing fences included,
  swallows a following run of ASCII letters and one newline. A tag glued to
  the code, as in "```print('hello')```", is lost with the fence.
- `diffcheck.py:62-78` diffs the first snippet against "", so it gets a real
  diff of its whole content, while `code_handler.py:39` gives the first
  snippet the diff "".
- `backend/diffcheck.py:28,31` gives each rejected snippet exactly the reason
  "Extra snippet" (a later valid block) or "Invalid Python" (any other
  block), replacing any reason its validation already had.
- `backend/diffcheck.py:12,24-26,48-49` leaves `final` as None when no block
  is valid, and the summary and flags then say no valid code was found.

## Left out

- Pydantic's lax coercion (for example, "1" accepted as an int version) is
  not modelled: only the exact declared types are accepted. Of several
  invalid fields, only the first one checked is named in the error.
- `str.isalnum` and `str.lower` are modelled on ASCII only. `str.strip` uses
  Python's whitespace set, written out.
- The body of `difflib.unified_diff` is not modelled. It is a parameter with
  a contract: empty exactly when the line lists are equal, otherwise starting
  with the `---`/`+++` header.
- `ast.parse` is a parameter returning success, a syntax error with its
  message, or another error with its message.
- `uuid.uuid4` is a parameter: the i-th fresh id in `version_snippets`, and
  the fresh session id in `Recap` and `backend/diffcheck.py`.
- The AgentCore branches of `memory_handler.py` (lines 22-27, 37-41) are not
  modelled: only the fallback store is.
- `backend/memory_handler.py` beyond `_key_to_path` is not modelled, because
  it is disk I/O: `mkdir`, the JSON reads and writes.
- Logging calls are left out.
- Floats and other Python types outside `str`, `int`, `bool`, `None`, `list`
  and `dict` are not modelled.
- `repr` of a list or dict in an f-string is a parameter of
  `MemoryHandler.SummarizeMemory`.
- MemoryHandler.MemoryStore.StoreMemory: stores the recap dict as a value.
  `memory_handler.py:29` stores a reference to the caller's dict, so later
  changes the caller makes to it show through `retrieve_memory`. The model
  does not capture that aliasing.
- `ClaudeSchema.ValidateClaudeResult` takes a dict. What happens to a
  non-dict argument (a TypeError or AttributeError from `in` or indexing) is
  not modelled.
- `BackendDiffCheck.DiffCodeBlocks` takes a list of dicts, as its type hint
  says. A non-dict element (an AttributeError on `.get`) is not modelled.
- `RecapFormatter.HumanReadableSplitsBack` needs the session id, summary,
  aha moments and flags to be free of line boundaries. With a newline in one
  of them, the joined text splits into more lines than were joined.
- Nothing of `api_recap.py`, `backend/app.py`, `bridge_server.py`,
  `backend/agent.py` or the regex filters is modelled. They are HTTP glue,
  LLM orchestration or `re`-based filtering.
