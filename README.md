# JSON recovery in the pull-request review tool

The review tool asks a language model for findings as a JSON array. The reply
is free text, so `safe_extract_json` (review_pr.py:44-66) recovers a value
from it in three stages, and the first one that parses wins:

1. the whole reply;
2. the slice from its first `[` to its last `]`, inclusive, taken only when
   both exist and the `]` lies after the `[`;
3. that slice repaired. The repair first quotes bare keys with
   `re.sub(r"(\w+):", r'"\1":', ...)`, then turns every `'` into `"`.

When no stage parses, or there is no slice, the result is `[]`. With the
standard `json` and `re` modules, no path raises (see "## Left out" for the
missing imports). Two pure fragments of `review_code` are modelled as well: the early
exit on an empty or failed diff (review_pr.py:70-71) and the filter that
keeps the findings about the file under review (review_pr.py:115).

`json.loads` is not modelled. It is a parameter `loads: string -> Option<Json>`,
where `None` stands for any exception it raises. Every property holds for
every such parser.

Modules:

- `JsonValue`: the decoded values, the parser type, and `EmptyList` for `[]`.
- `TextSearch`: `str.find`, `str.rfind` and the class `\w`, defined by
  `Find`, `RFind` and `IsWordChar` (review_pr.py:52-53, 60).
- `KeyQuoting`: the regex rewrite, written the way the regex engine runs it
  (`SubFrom`: greedy `\w+` with backtracking, and a rescan after a failed
  attempt). It is proved equal to two independent readings: one maximal run
  of word characters at a time (`QuoteRunsFrom`), and one pass that holds
  back the current run (`QuoteStream`). `QuoteKeys` is the rewrite of
  review_pr.py:60, computed by `SubFrom`, whose attempts are `MatchAt` and
  `Backtrack`.
- `KeyQuotingLaws`: what the rewrite promises. It leaves no bare key, it is
  idempotent, it differs from its input only in double quotes, and it leaves text without bare
  keys unchanged.
- `Repair`: quote normalisation and the two-step repair. `NormalizeQuotes`
  is review_pr.py:61 and `RepairSnippet` is review_pr.py:60-61.
- `Extraction`: the three-stage cascade. `SafeExtractJson` is
  review_pr.py:44-66 and `Snippet` is the slice of review_pr.py:52-55.
- `WorkedExample`: the reply
  `Here you go: [{'file': 'a.py', line: 3, comment: 'fix this'}] thanks`.
  Its slice is repaired to `[{"file": "a.py", "line": 3, "comment": "fix this"}]`.
- `ReviewCode`: the diff guard and the per-file filter. `ReturnsEarly` is the
  guard of review_pr.py:70; `BelongsTo`, `FilterItems` and `FilterForFile`
  are the comprehension of review_pr.py:115.

The docstring of `safe_extract_json` (review_pr.py:45) speaks of a JSON
array, but the code at review_pr.py:46-47 returns whatever
`json.loads(text)` returns. The model follows the code: an object, a number
or a string is returned as it is (`Extraction.WholeTextWins`).

## Model

| member | source | states |
|---|---|---|
| TextSearch.Find | review_pr.py:52 | the result is -1 when the character is absent; otherwise it is an index holding it, and no earlier index holds it |
| TextSearch.RFind | review_pr.py:53 | the result is -1 when the character is absent; otherwise it is an index holding it, and no later index holds it |
| TextSearch.AbsentIff | review_pr.py:52-54 | each search answers -1 exactly when the character does not occur |
| Extraction.SnippetExistsIff | review_pr.py:52-55 | a slice is taken exactly when some `[` comes before some `]` |
| Extraction.SnippetIsFramedSlice | review_pr.py:52-55 | the slice runs from index `find('[')` to index `rfind(']')` inclusive; it opens with `[` and closes with `]`, no `[` precedes it and no `]` follows it |
| Extraction.SnippetOfFramed | review_pr.py:52-55 | for prose `p + b + q`, where `b` is bracketed, `p` has no `[` and `q` has no `]`, the slice is exactly `b` |
| Extraction.FirstParse | review_pr.py:44-66 | the reference cascade yields nothing exactly when no candidate parses; otherwise it yields the first candidate that parses |
| Extraction.ExtractIsFirstSuccess | review_pr.py:44-66 | the extractor is the first-success cascade over the reply, the slice and the repaired slice, with `[]` as fallback |
| Extraction.ResultIsParsedOrEmpty | review_pr.py:44-66 | every result is `[]` or the parse of one of the candidates; no path fails |
| Extraction.OnlyCandidatesMatter | review_pr.py:44-66 | two parsers that agree on the candidates give the same result |
| Extraction.WholeTextWins | review_pr.py:46-47 | a reply that parses is returned as parsed, whatever its JSON type |
| Extraction.NoBracketPairGivesEmpty | review_pr.py:52-66 | a reply that does not parse and has no `[` before a `]` gives `[]` |
| Extraction.FramedSnippetWins | review_pr.py:55-57 | when the reply fails but its bracketed part parses, that value is returned without repair |
| Extraction.FramedSnippetRepaired | review_pr.py:59-65 | when the reply and the slice both fail, the result is the parse of the repaired slice, or `[]` |
| KeyQuoting.MatchAtIsMaximalRun | review_pr.py:60 | a greedy `\w+` attempt with backtracking succeeds exactly when the run from that position is followed by `:`, and it ends at that `:` |
| KeyQuoting.FailedRunIsCopied | review_pr.py:60 | inside a run not followed by `:` each attempt fails, and the run is copied unchanged |
| KeyQuoting.QuoteKeysIsRunWise | review_pr.py:60 | the substitution wraps each maximal run of word characters followed by `:` in double quotes, and copies every other run and character in order |
| KeyQuoting.QuoteKeysIsStream | review_pr.py:60 | the substitution equals the one-pass reading that holds back the current run |
| KeyQuoting.QuoteKeysConcat | review_pr.py:60 | a text split just after a non-word character is rewritten part by part |
| KeyQuotingLaws.NoColonUnchanged | review_pr.py:60 | a text without `:` is left as it is |
| KeyQuotingLaws.NoBareKeyUnchanged | review_pr.py:60 | a text in which no word character precedes a `:` is left as it is |
| KeyQuotingLaws.QuoteKeysLeavesNoBareKey | review_pr.py:60 | after the rewrite, no word character stands right before a `:` |
| KeyQuotingLaws.QuoteKeysIdempotent | review_pr.py:60 | rewriting twice is the same as rewriting once |
| KeyQuotingLaws.QuoteKeysOnlyAddsDoubleQuotes | review_pr.py:60 | with all double quotes deleted, the output equals the input with all double quotes deleted: the two differ only in double quotes, and every other character keeps its order |
| Repair.NormalizeQuotes | review_pr.py:61 | the length is kept, every `'` becomes `"`, no `'` is left, and every other character stays where it was |
| Repair.NormalizeQuotesWithoutSingleQuote | review_pr.py:61 | a text without `'` is unchanged |
| Repair.NormalizeQuotesConcat | review_pr.py:61 | the replacement distributes over concatenation |
| Repair.NormalizeQuotesKeepsRuns | review_pr.py:61 | the replacement keeps the runs of word characters where they were |
| Repair.RepairIsClean | review_pr.py:60-61 | the repaired slice has no `'` and no bare key |
| Repair.RepairIdempotent | review_pr.py:60-61 | repairing a repaired text changes nothing |
| Repair.RepairConcat | review_pr.py:60-61 | a slice split just after a non-word character is repaired part by part |
| Repair.RepairStepsCommute | review_pr.py:60-61 | key quoting and quote replacement give the same text in either order |
| WorkedExample.ExampleKeysQuoted | review_pr.py:60 | in the example slice exactly `line` and `comment` get quotes; `'file'` is already quoted and keeps its single quotes |
| WorkedExample.ExampleRepair | review_pr.py:60-61 | the example slice is repaired to `[{"file": "a.py", "line": 3, "comment": "fix this"}]` |
| WorkedExample.ExampleSnippetIsSliced | review_pr.py:52-55 | the slice of the example reply is its bracketed part |
| WorkedExample.ExampleIsRepaired | review_pr.py:44-66 | if the example reply and its slice do not parse, the extractor returns the parse of the repaired text, or `[]` |
| ReviewCode.ErrorReportReturnsEarly | review_pr.py:70-71 | an empty diff, and every `Error getting diff: ...` report, whatever the message, returns `[]` at once |
| ReviewCode.DiffIsReviewed | review_pr.py:70-71 | a nonempty diff not starting with `E` (such as one starting `diff --git`) goes on to review |
| ReviewCode.GuardIgnoresTail | review_pr.py:70 | the guard looks only at the prefix: appending text to an early-exit diff keeps the early exit |
| ReviewCode.FilterItems | review_pr.py:115 | over a list, the filter raises exactly when some element is not a dict; otherwise it keeps only items of the file, taken from the list |
| ReviewCode.FilterForFile | review_pr.py:115 | Python iteration applies: a list is filtered; an empty dict or string gives `[]`; a nonempty dict or string raises on `.get`; any other value is not iterable |
| ReviewCode.FilterOne | review_pr.py:115 | a single dict is kept exactly when its `file` equals the path |
| ReviewCode.FilterConcat | review_pr.py:115 | the filter distributes over concatenation, so kept items stay in their relative order |
| ReviewCode.FilterCounts | review_pr.py:115 | each item of the file is kept as often as it occurs; nothing else is kept |
| ReviewCode.FilterKeepsAll | review_pr.py:115 | a list of items that all belong to the file is kept whole |

## Left out

- `run_syntax_checks` (review_pr.py:1-41): it runs `eslint` as a subprocess, calls `py_compile` and reads files. That is foreign tooling and I/O.
- The rest of `review_code` (review_pr.py:73-124): it reads files, calls the `ollama` network client and joins the results of `parse_unified_diff` and `rule_based_review`. Neither is defined in review_pr.py or review.py.
- review_pr.py:113 calls the undefined name `safe`. The resulting `NameError` is caught at review_pr.py:117, so, assuming the imports and the two helpers exist, every file that was read gets an "LLM review failed" record. The filter is modelled over the extractor's value from review_pr.py:111, the evident intent. This is noted in a comment only.
- review.py (`get_pr_diff`, the network `review_code`, `main`): git, network, argv and printing. Only the text of its error report is used (`ReviewCode.ErrorReportReturnsEarly`).
- The internals of `json.loads`: it is an abstract parameter.
- Imports: review_pr.py has no import statements, so as written `json`, `re`, `os` and `ollama` are unbound. `json.loads` at review_pr.py:47 and 57 would raise `NameError`, which the handlers at 48 and 58 catch. `re.sub` at review_pr.py:60 would raise `NameError` inside the handler of line 58, uncaught, for every reply with a bracket pair. Likewise `os.path.splitext` at review_pr.py:4 raises before the `try` at line 6, so `run_syntax_checks` fails at its call at review_pr.py:79, and `review_code` raises before it reads any file (as does the undefined `parse_unified_diff` at line 73, earlier still). The model takes `json.loads` and `re.sub` to be the standard-library ones, as the surrounding program evidently assumes.
- TextSearch.IsWordChar: Python 3's `\w` also matches non-ASCII letters and digits. The model takes the ASCII class `[A-Za-z0-9_]`, so bare keys spelled with non-ASCII letters are outside the model.
- JsonValue.Json: a JSON float is a mathematical real, so NaN, infinities and rounding are not modelled. A dict is a map, so its key order is not modelled. The filter's outcome does not depend on that order.
- ReviewCode.FilterForFile: a raised exception is `None`, without its type (`AttributeError` or `TypeError`). Only `except Exception` at review_pr.py:117 observes it, and it treats both types alike.
