# setup-models: the recommendation merge and the launch-script patch

`setup-models.py` configures a local vLLM deployment from the recommendations
of the `llmfit` hardware-detection tool. This project models its two
state-changing steps, with the file and process I/O stripped off:

- **The recommendation merge** (`update_opencode_json`). It takes the parsed
  `opencode.json` document and llmfit's recommendation list. It stops with an
  error when the file is absent or lacks `provider.vllm`. It creates
  `provider.vllm.models` when that table is missing. Then it walks the
  recommendations in order and inserts an entry `{name, contextWindow, maxTokens}`
  for every identifier that is not yet a key. It returns the document to write
  back, the "best model" and the number of entries added.
- **The launch-script patch** (`update_run_sh`). It takes the best model and the
  lines of `run.sh`. It rewrites the first line containing `--model ` to
  `<that line's indentation>--model <best model> \` followed by a newline, and
  writes the script back only when such a line exists.

Modules:

- `Wrappers` (`wrappers.dfy`): `Option` and `Result`. A `Failure` result stands
  for the `sys.exit(1)` paths.
- `Text` (`text.dfy`): Python's `in` on strings, `split('/')[-1]` and the
  `lstrip`-based indentation. `LastSegment` and `Indent` carry contracts
  that characterise them, and the lemma `ContainsIffOccurs` characterises
  `Contains`.
- `OpencodeConfig` (`opencode_config.dfy`): the document as nested datatypes
  (`Config` → optional `Provider` → optional `Vllm` → optional models map). The
  merge is the method `UpdateOpencodeJson`. Its loop reassigns a local `map`,
  as the source mutates the dict, and keeps the `best_model` and
  `updated_count` accumulators. The method is proved equal to the function
  `Merge`, and the source's promises are lemmas about `Merge` and
  `MergedModels`.
- `RunScript` (`run_script.dfy`): the patch. `PatchModelFlag` rewrites an
  `array<string>` in place with an early `break`, as the source does with its
  list. `UpdateRunSh` is the whole step, and the function `Patched` specifies
  the rewrite.

Two points where the model makes the code's behaviour explicit:

- The comment at setup-models.py:60 calls the first recommendation the top
  one. The code, however, keeps replacing `best_model` while it is falsy
  (`None` or `""`), so the best model is the first non-empty name. When the
  list is non-empty but every name is empty, it is `""`.
- `maxTokens` is `min(8192, contextWindow // 4)` for every integer context
  length, negative ones included. Dafny's `/` by the positive divisor 4 rounds
  down, as Python's `//` does.

## Model

| member | source | states |
|---|---|---|
| `Text.IsSpace` | setup-models.py:105 | the characters `str.isspace` accepts and `lstrip()` removes; `Text.Indent` and `Text.IndentOfIndented` state the indentation in terms of it |
| `Text.ContainsIffOccurs` | setup-models.py:103 | the left-to-right scan used for `"--model " in line` holds exactly when the pattern occurs at some index of the line |
| `Text.LastSegment` | setup-models.py:70 | `split('/')[-1]` is the suffix of the identifier that has no `/` and is either the whole identifier or preceded by a `/` |
| `Text.Contains` | setup-models.py:103 | `"--model " in line`, computed by a left-to-right scan; `Text.ContainsIffOccurs` shows it holds exactly when the pattern occurs at some index of the line |
| `Text.Indent` | setup-models.py:105 | the kept indentation is a prefix of the line, made only of `str.isspace` characters, and followed by a non-whitespace character or the end of the line |
| `Text.IndentOfIndented` | setup-models.py:105-106 | whitespace followed by a non-whitespace character has exactly that whitespace as its indentation |
| `OpencodeConfig.Listed` | setup-models.py:58 | `recommendations.get("models", [])`: an absent list is walked as empty; `Merge` and `BestModel` state what the merge does with it |
| `OpencodeConfig.ContextWindow` | setup-models.py:64 | `model.get("context_length", 32768)`; `NewEntry` states that the added entry's context window is the given length, or 32768 when it is absent |
| `OpencodeConfig.Quant` | setup-models.py:70 | `model.get('best_quant', 'auto')`; `NewEntryName` states that the label in the display name is the given quantisation, or `auto` |
| `OpencodeConfig.MaxTokens` | setup-models.py:66 | `maxTokens` is at most 8192, at most a quarter of the context window, and the largest value with both properties |
| `OpencodeConfig.DisplayName` | setup-models.py:70 | the display name `f"{id.split('/')[-1]} (vLLM, {quant})"`; `OpencodeConfig.DisplayNameShape` characterises it as the last `/`-segment, then ` (vLLM, `, the label and `)` |
| `OpencodeConfig.DisplayNameShape` | setup-models.py:70 | a display name is the identifier's last `/`-segment (the whole identifier when it has no `/`, empty after a trailing `/`), then ` (vLLM, `, the quantisation label, and `)` |
| `OpencodeConfig.NewEntry` | setup-models.py:64-73 | an added entry's context window is the recommendation's `context_length`, or 32768 with `maxTokens` 8192 when it is absent; `maxTokens <= 8192` and `4 * maxTokens <= contextWindow` |
| `OpencodeConfig.NewEntryName` | setup-models.py:70 | an added entry's display name is the identifier's last `/`-segment followed by ` (vLLM, `, the `best_quant` label or `auto`, and `)` |
| `OpencodeConfig.DerivationExamples` | setup-models.py:64-72 | `org/model-7b` with no context length or quantisation yields `model-7b (vLLM, auto)`, 32768 and 8192; a context length of 16000 yields `maxTokens` 4000 |
| `OpencodeConfig.Insert` | setup-models.py:68-73 | one iteration's insertion: the entry for a new identifier, nothing for a known one; `OpencodeConfig.MergedModelsSnoc` states this step inside the loop |
| `OpencodeConfig.NamesOnlyListed` | setup-models.py:57-62 | every identifier the loop visits is the `name` of some recommendation in the list |
| `OpencodeConfig.MergedModels` | setup-models.py:58-74 | after the loop the keys are exactly the old keys plus every recommended identifier, and every old key keeps its entry |
| `OpencodeConfig.MergedModelsNewEntry` | setup-models.py:68-73 | an added key holds the entry derived from the first recommendation with that identifier; later duplicates change nothing |
| `OpencodeConfig.MergedModelsCovered` | setup-models.py:68 | when every recommended identifier is already a key, the loop leaves the table unchanged |
| `OpencodeConfig.MergedModelsSnoc` | setup-models.py:58-74 | one loop iteration inserts the current recommendation's entry if its identifier is not yet a key, and otherwise leaves the table unchanged |
| `OpencodeConfig.MergedModelsIdempotent` | setup-models.py:58-74 | merging the same recommendations into the merged table changes nothing |
| `OpencodeConfig.AddedCount` | setup-models.py:68-74 | the table grows by the number of distinct recommended identifiers that were not keys, so a repeated identifier is counted once |
| `OpencodeConfig.MergeStep` | setup-models.py:58-74 | one iteration updates the table, the added count and the best-model accumulator as the loop body does |
| `OpencodeConfig.BestModel` | setup-models.py:56-60 | the `best_model` accumulator after a list of recommendations is absent exactly when the list is empty; `BestModelIsFirstNonEmpty` and `BestModelAllEmpty` give its value |
| `OpencodeConfig.BestModelIsFirstNonEmpty` | setup-models.py:56-60 | the best model is the first non-empty recommended name |
| `OpencodeConfig.BestModelAllEmpty` | setup-models.py:56-60 | with no non-empty name, the best model is absent for an empty list and the empty name otherwise |
| `OpencodeConfig.ModelsOf` | setup-models.py:52-53 | the models table of the document, an empty one when it is missing; `Merge` states that the written document always holds the table, so a missing one is created |
| `OpencodeConfig.Merge` | setup-models.py:41-85 | an absent file, or a missing `provider` or `provider.vllm`, is an error with nothing to write. A present file without `provider.vllm` gets exactly the `MissingProviderVllm` error. Otherwise the written document's models table is present (created when it was missing) and is exactly `MergedModels` of the old table, or of an empty one, and the recommendations; so it has the old keys plus the recommended ones, old entries are unchanged, and each added entry is the one `MergedModelsNewEntry` derives. The added count is the table's growth, and the best model is returned |
| `OpencodeConfig.MergeIdempotent` | setup-models.py:58-85 | a second merge of the same recommendations into the written document gives the same document, the same best model and an added count of 0 |
| `OpencodeConfig.UpdateOpencodeJson` | setup-models.py:37-85 | the loop with its accumulators computes exactly `Merge`: the same error, document, best model and added count |
| `RunScript.IsFlagLine` | setup-models.py:103 | the test `"--model " in line`; `FirstFlagLine`, `Patched`, `PatchModelFlag` and `UpdateRunSh` state which lines the patch touches through it |
| `RunScript.FlagLine` | setup-models.py:105-106 | the rewritten line `<indent>--model <model> \` contains `--model ` again and keeps the original line's indentation |
| `RunScript.RewrittenLine` | setup-models.py:103-106 | whitespace followed by `--model <model> \` is a line the patch recognises, and its indentation is exactly that whitespace |
| `RunScript.FirstFlagLine` | setup-models.py:102-103 | the position found is a line containing `--model ` with no such line before it; none is found only when no line contains it |
| `RunScript.Patched` | setup-models.py:101-108 | the patched script has the same length; its first `--model ` line becomes the rewritten line, and every other line is unchanged (so with no such line the script is unchanged) |
| `RunScript.FlagLineIdempotent` | setup-models.py:105-106 | rewriting a rewritten line for the same model gives the same line, because its indentation is kept |
| `RunScript.PatchedIdempotent` | setup-models.py:101-108 | patching an already patched script for the same model changes nothing |
| `RunScript.PatchExample` | setup-models.py:105-106 | the line `  --model <old> \` becomes `  --model <new> \`, with its two-space indentation and the trailing continuation kept |
| `RunScript.PatchModelFlag` | setup-models.py:101-108 | the in-place scan rewrites the array to exactly `Patched` of its old contents, and reports whether a `--model ` line existed |
| `RunScript.UpdateRunSh` | setup-models.py:87-115 | nothing is written when there is no best model (absent or empty), when the script is missing, or when no line contains `--model `. Otherwise the lines written are `Patched` of the script, and a write happens exactly when some line contains the flag |

## Left out

- `find_llmfit` (setup-models.py:7-22): existence checks in the working directory, the `PATH` lookup and the platform-dependent binary name are environment I/O.
- `run_llmfit_recommend` (setup-models.py:24-35): running the process and parsing its JSON are foreign calls. Only their outcome is modelled, as the `Report` input. A failed run or unparseable output ends the program before the merge and is not represented.
- Reading and writing `opencode.json` and `run.sh`, including the 2-space JSON formatting. The file contents are inputs, and what would be written is part of the result. A `json.load` failure on a malformed file is not modelled.
- All console messages, the emoji progress trace and the `main` sequencing, including the disabled `update_run_sh` call.
- Malformed recommendations. A record without `name` raises a `KeyError` at setup-models.py:60 or :62. A `name` that is not a string raises too: a `TypeError` at the `not in` test (setup-models.py:68) for an unhashable value, or an `AttributeError` from `.split` (setup-models.py:70). A `context_length` that is not an integer either raises at `context_window // 4` (setup-models.py:66, for `null` or a string) or yields non-integer values (for a float). The model's types rule these out and do not model the exceptions.
- JSON values of the wrong type in the document or the report. `Config`, `Vllm` and `Report` use an absent `Option` only for a missing key, so these inputs cannot be represented, and the exceptions they cause are not modelled:
  - A `provider.vllm` that is present but not an object passes the key test at setup-models.py:48. `{"provider": {"vllm": null}}` then raises a `TypeError` at setup-models.py:52.
  - A `models` value that is `null` or a list raises at setup-models.py:68-69 once the recommendation list is non-empty. With an empty list, the document is written back unchanged.
  - A report whose `models` is `null` raises at setup-models.py:58 when the loop iterates it. A report that is a JSON array raises an `AttributeError` there, from `.get`.
- A `best_quant` that is not a string is not represented. The source does not fail on it: the f-string at setup-models.py:70 formats any value with `str()`, so `null` gives `<segment> (vLLM, None)`.
- The key order of the written `models` table is not modelled. The source adds new identifiers after the existing keys, in recommendation order (setup-models.py:69), and `json.dump` (setup-models.py:78) writes them in that order. A Dafny `map` has no order, so the model fixes only which keys the table holds and their entries.
- JSON keys beside `provider.vllm.models` and the contents of pre-existing entries are not represented. Existing entries are values of the same `Entry` type, compared only for equality, and the merge never reads them.
- `sys.exit(1)` is a `Failure` result, not process termination.
