# dnl_rewriter: prompt construction and dataset assembly, in Dafny

dnl_rewriter rewrites Italian sentences so that masculine and feminine endings
referring to people are replaced by a schwa (ə). This project models the
deterministic core of its two scripts and proves properties of that core.

* `scripts/prompt_rewriter.py` prompts a language model. The model covers:
  - gender-balancing Neo-GATE (`balance_neogate`);
  - building k-shot prompts (`create_prompts`), chat messages
    (`create_messages`), instructed prompts (`add_instructions`) and the
    requests of `zeroshot_prompt` from fixed English and Italian templates;
  - trimming a decoded output to its last line;
  - truncating examples to their first words;
  - naming a run in `main`.
* `scripts/create_my_dataset.py` assembles the training corpus. The model
  covers, in order:
  - the mGeNTE Set-N rows with their schwa rewrites;
  - the MT-GenEval context rows, annotated split by split (`augment`) and
    balanced by gender (`balance_geneval_context`);
  - dropping the rows whose rewrite is the literal "None";
  - tagging both corpora with constant columns;
  - ordering columns (`reorder`);
  - concatenating, shuffling, numbering from 1 and splitting the rows into
    train and validation sets.

Files:

| file | contents |
|---|---|
| `wrappers.dfy` | `Option` and `Result` |
| `text.dfy` | the Python string operations the scripts use, with their laws: `strip`, `split`/`join` on one character, `str(int)`, `in` on strings, lexicographic order |
| `seqs.dfy` | tables as sequences of rows. `filter`, counting, `shuffle` as a permutation of positions, a stable sort on a string key, and the multiset facts about them |
| `prompt_templates.dfy` | the fixed prompt strings and their shape (one line each, the sentinel, the end-of-sequence marker, what `strip` does to them) |
| `prompt_rewriter.dfy` | the operations of `prompt_rewriter.py` |
| `dataset_builder.dfy` | the operations of `create_my_dataset.py` |

Randomness is an input:
- `random.sample(pool, k)` becomes, for each request, a list of k distinct
  positions into the pool (`IsSample`);
- `.shuffle()` becomes a permutation of positions (`IsIndexPermutation`).

Errors the Python code raises are `Err` values:
- a template read before assignment, when the language is neither "en" nor
  "it";
- `random.sample` with k negative or above the pool size;
- a model path without a second "/" component;
- `add_column` with a column of another length;
- a missing split or column;
- `select` of a range that starts at no existing row or ends past the last
  row of a non-empty table.

## Model

| member | source | states |
|---|---|---|
| PromptRewriter.BalanceNeoGate | scripts/prompt_rewriter.py:22-36 | as many rows as the input, in input order; row i keeps its masculine reference and gets "M" for i < n/2, and its feminine reference and "F" otherwise |
| PromptRewriter.NeoGateGenderCounts | scripts/prompt_rewriter.py:25-31 | of n balanced rows, exactly n/2 are "M" and n - n/2 are "F" |
| PromptRewriter.FillTemplates | scripts/prompt_rewriter.py:111-135 | the template loop fails exactly when the language has no templates and the loop body runs; otherwise it gives item i written into the template, for every i |
| PromptRewriter.MapEach | scripts/prompt_rewriter.py:166-168 | the append loop yields `f` of every item, in order |
| PromptRewriter.SampleBatches | scripts/prompt_rewriter.py:138-143 | sampling fails exactly when there is a request and k is negative or above the pool size; otherwise there is one value per request, built from k distinct pool entries in the sampled order |
| PromptRewriter.CreatePrompts | scripts/prompt_rewriter.py:96-144 | unknown language with a non-empty loop, or a bad k with a non-empty test set, is an error (the language error first). Otherwise there is one target input and one example batch per test sentence; target input i is the request template over the stripped sentence (plus the sentinel for seq2seq), and batch i is the newline join of the sampled pool examples |
| PromptRewriter.ExampleBatchLines | scripts/prompt_rewriter.py:138-142 | with single-line data, a batch splits back into exactly k lines; line m is the example of the m-th sampled pair, and the sampled positions are distinct |
| PromptRewriter.CreateMessages | scripts/prompt_rewriter.py:146-220 | one prompt per test sentence. With k = 0 it is a single user turn: the English description, a newline and the request with its trailing space. Otherwise it is the three turns of `ChatTurns` over the sampled pairs, or an error exactly when k is out of range and there is a request |
| PromptRewriter.KShotPromptLines | scripts/prompt_rewriter.py:305-321 | the lines of a decoder-only prompt are the single-line examples followed by the request, and trimming an output that echoes the prompt keeps exactly the request |
| PromptRewriter.KShotPromptOfBatch | scripts/prompt_rewriter.py:280-305 | with single-line data, the prompt for one request has k + 1 lines: the examples of the sampled pairs in order, then the request, which is also what trimming an echoed prompt keeps |
| PromptRewriter.ChatTurnsLayout | scripts/prompt_rewriter.py:196-218 | for single-line data: roles user, assistant, user; the first turn is the description line plus k request lines without the trailing space; the assistant turn is k bracketed targets aligned line by line with them; the last turn is the bare request |
| PromptRewriter.ZeroShotChatLines | scripts/prompt_rewriter.py:170-180 | a zero-shot chat turn is exactly two lines: the description and the request |
| PromptRewriter.AddInstructions | scripts/prompt_rewriter.py:222-234 | same length as the input; output i is the description in the prompt language, a newline, and batch i unchanged; unknown language with a non-empty list is an error |
| PromptRewriter.ZeroShotRequests | scripts/prompt_rewriter.py:374-379 | one request per test sentence over the stripped sentence; none at all for a language other than "en" and "it" |
| PromptRewriter.ZeroShotPrompts | scripts/prompt_rewriter.py:374-384 | every zero-shot prompt is the English description, a newline and the request in the chosen language; there are no prompts for another language |
| PromptRewriter.ZeroShotPromptSentence | scripts/prompt_rewriter.py:377-384 | the text after the description line of a zero-shot prompt unwraps to the stripped test sentence |
| PromptRewriter.LastSegment | scripts/prompt_rewriter.py:321 | the kept prediction has no newline, is a suffix of the decoded text, and is the whole text or follows a newline |
| PromptRewriter.LastSegmentUnique | scripts/prompt_rewriter.py:321 | any suffix with those three facts is the kept prediction |
| PromptRewriter.LastSegmentOfLines | scripts/prompt_rewriter.py:399 | trimming a text made of newline-free lines keeps exactly its last line |
| PromptRewriter.TruncateWords | scripts/prompt_rewriter.py:460-462 | the truncated example is a prefix of the original. For n >= 1 it splits into exactly the first min(n, #words) words; for n < 0 into all but the last -n words; it is empty for n = 0 or n <= -#words |
| PromptRewriter.ChosenLanguage | scripts/prompt_rewriter.py:428-431 | a given language is used as is; otherwise "it" exactly when "it" occurs in the model name, else "en" |
| PromptRewriter.QuantizationTag | scripts/prompt_rewriter.py:438-444 | "_full" exactly for no quantization, "_4bit" exactly for 4, "_8bit" exactly for 8, nothing for any other value |
| PromptRewriter.RunName | scripts/prompt_rewriter.py:425-474 | fails exactly when the model path has no second "/" component. Otherwise the name is model, language, precision, shot count, and "_instructions" exactly on the non-chat, k != 0, instructed path |
| PromptRewriter.SaveModelNamePrefix | scripts/prompt_rewriter.py:436 | a run name starts with the model name, "_" and the language |
| PromptRewriter.SaveModelNameSuffix | scripts/prompt_rewriter.py:446-474 | a run name ends with "_instructions" if and only if the run is instructed; otherwise it ends with "_{k}shot" |
| PromptTemplates.ParseLanguage | scripts/prompt_rewriter.py:114-117 | templates exist exactly for "en" and "it", and the parsed language prints back as its code |
| PromptTemplates.ParseLanguageCode | scripts/prompt_rewriter.py:114-117 | parsing a language's code gives that language back |
| PromptTemplates.RequestParts | scripts/prompt_rewriter.py:115-117 | the fixed parts of a request hold no newline; the head starts with a visible character and the tail ends with ':' |
| PromptTemplates.RequestShape | scripts/prompt_rewriter.py:115-117 | a request neither starts nor ends with whitespace, and is one line when its sentence is |
| PromptTemplates.Unwrap | scripts/prompt_rewriter.py:115-117 | a sentence recovered from a text is one whose request is that text |
| PromptTemplates.UnwrapRequest | scripts/prompt_rewriter.py:115-117 | a request determines its sentence: unwrapping gives it back |
| PromptTemplates.TargetInputSentinel | scripts/prompt_rewriter.py:113-119 | a target input ends with " <extra_id_0>" if and only if the workflow is "seq2seq" |
| PromptTemplates.TargetInputBody | scripts/prompt_rewriter.py:113-119 | without the sentinel, a target input is the request for the stripped sentence |
| PromptTemplates.ExampleEntryShape | scripts/prompt_rewriter.py:128-133 | an example pair ends with "</s>", opens with the request for its stripped source and a space, and is one line for single-line data |
| PromptTemplates.InstructionSingleLine | scripts/prompt_rewriter.py:229-231 | the rewriting instruction is one line, in both languages |
| PromptTemplates.InstructedLines | scripts/prompt_rewriter.py:229-231 | the description is exactly the first line of an instructed text, and the rest is the body unchanged |
| PromptTemplates.StripChatRequest | scripts/prompt_rewriter.py:190-201 | stripping a chat request drops exactly its trailing space |
| PromptTemplates.StripChatTarget | scripts/prompt_rewriter.py:191-202 | stripping a bracketed target changes nothing |
| PromptTemplates.ChatTurnsSingleLine | scripts/prompt_rewriter.py:186-193 | chat requests and targets built from single-line data are single lines |
| DatasetBuilder.SelectSetN | scripts/create_my_dataset.py:12-14 | attaching the rewrites fails exactly when their number differs from the number of Set-N rows; row i is Set-N row i with rewrite i |
| DatasetBuilder.Augment | scripts/create_my_dataset.py:19-35 | fails exactly when a split has no annotation table of its length or "train"/"test" is missing. Otherwise the result is the annotated train rows then the annotated test rows, with `orig_id` prefixed by "geneval_{split}_" |
| DatasetBuilder.AugmentedIdsDistinct | scripts/create_my_dataset.py:30-33 | the combined set has as many rows as the two splits; identifiers distinct within each split are distinct across the combined set |
| DatasetBuilder.BalanceIsSortedKept | scripts/create_my_dataset.py:40-62 | balancing fails exactly when the F-then-M pool is non-empty and holds no more than n/2 rows. Otherwise it is the kept rows sorted by `orig_id`: pool row i under tag F for i < n/2, under tag M after |
| DatasetBuilder.SelectHalvesKept | scripts/create_my_dataset.py:51-60 | the two `select` calls succeed exactly when the candidate columns are empty or n/2 falls before their end, and then their concatenation is the row-by-row choice between F and M candidates |
| DatasetBuilder.CandidatesConcat | scripts/create_my_dataset.py:48-56 | tagging the F group and the M group and concatenating equals tagging the pool |
| DatasetBuilder.KeptHalves | scripts/create_my_dataset.py:51-60 | the first n/2 F candidates followed by the M candidates from n/2 on are the row-by-row choice between the two |
| DatasetBuilder.PoolRows | scripts/create_my_dataset.py:41-44 | the F-then-M pool holds every input row labelled F or M exactly as often as the input does |
| DatasetBuilder.PoolSize | scripts/create_my_dataset.py:41-44 | the pool has one row per input row labelled F or M |
| DatasetBuilder.PoolMember | scripts/create_my_dataset.py:43-44 | a pool row is an input row labelled F or M |
| DatasetBuilder.KeptRowOrigin | scripts/create_my_dataset.py:48-57 | kept row p is pool row p under the tag F or M, and that pool row is a labelled input row |
| DatasetBuilder.LabelledCount | scripts/create_my_dataset.py:43-44 | when every row is labelled F or M, the F and M counts add up to all rows |
| DatasetBuilder.CountKeptLabels | scripts/create_my_dataset.py:46-60 | the kept rows carry n/2 F tags and the rest M tags |
| DatasetBuilder.BalanceCounts | scripts/create_my_dataset.py:46-60 | balancing fails exactly when some rows are labelled but no more than n/2. The output has one row per labelled input row; when there are any, n/2 of them are F and the rest M. With every row labelled, balancing succeeds and returns n rows, n/2 F and n - n/2 M |
| DatasetBuilder.BalanceKeepsEachRowOnce | scripts/create_my_dataset.py:48-62 | apart from tag and chosen reference, the output holds every labelled input row exactly once, and it is sorted by `orig_id` |
| DatasetBuilder.KeptKeys | scripts/create_my_dataset.py:48-57 | retagging keeps every column but the tag and the reference, row by row |
| DatasetBuilder.BalanceReferences | scripts/create_my_dataset.py:48-55 | every output row is a labelled input row tagged F or M, whose reference is the original one when the tag equals its label and the flipped one otherwise |
| DatasetBuilder.KeptMember | scripts/create_my_dataset.py:48-57 | any kept row is a retagged labelled input row |
| DatasetBuilder.DropMissingSchwa | scripts/create_my_dataset.py:67 | no kept row has the rewrite "None", and every other row is kept as often as it occurs |
| DatasetBuilder.DropMissingSchwaKeepsOrder | scripts/create_my_dataset.py:67 | the filter distributes over concatenation and keeps a single row exactly when its rewrite is not "None", so relative order is kept |
| DatasetBuilder.TagSetN | scripts/create_my_dataset.py:73-75 | every Set-N row gets the corpus "mGeNTE_Set-N" and the gender "N", and keeps its identifier, source, reference and rewrite |
| DatasetBuilder.TagContext | scripts/create_my_dataset.py:78-79 | every context row gets the corpus "MT-GenEval_Context"; the other kept columns are unchanged |
| DatasetBuilder.AssignIds | scripts/create_my_dataset.py:99 | row i (from 0) of the shuffled table gets the identifier i + 1, and its content is unchanged |
| DatasetBuilder.IdsDense | scripts/create_my_dataset.py:99 | the identifiers are distinct and are exactly 1..n |
| DatasetBuilder.SplitTrainVal | scripts/create_my_dataset.py:105 | the train part has the requested size, and train followed by validation is the table in order |
| DatasetBuilder.CombinedTagged | scripts/create_my_dataset.py:67-79 | every combined row is either a Set-N row of gender "N" or a context row whose rewrite is not "None" |
| DatasetBuilder.BuildDatasetProperties | scripts/create_my_dataset.py:96-105 | the two files hold every Set-N row and every context row with a rewrite exactly once. They are numbered 1..n in file order, the train file has the requested size, and every row is tagged by its origin |
| DatasetBuilder.Lookup | scripts/create_my_dataset.py:88 | `ds[col]` exists exactly when the table has a column of that name, and gives that column's values |
| DatasetBuilder.Distinct | scripts/create_my_dataset.py:86-88 | the distinct entries of a list: no repeats, and the same entries |
| DatasetBuilder.DistinctOfDistinct | scripts/create_my_dataset.py:86-88 | a list without repeats is its own list of distinct entries |
| DatasetBuilder.DistinctSnoc | scripts/create_my_dataset.py:86-87 | one more entry joins the distinct entries unless it is already among them |
| DatasetBuilder.AddColumn | scripts/create_my_dataset.py:87-88 | adding a column of `ds` under a new name keeps the table well formed and drawn from `ds`, and adds the name last |
| DatasetBuilder.Reorder | scripts/create_my_dataset.py:84-90 | fails exactly when `cols` names a column the table lacks. Otherwise the column names are the distinct entries of `cols` in order, every column has the original values, and the row count is unchanged |
| Seqs.CountSplit | scripts/prompt_rewriter.py:25-31 | elements that pass the first test before a split point and the second after it count the split point for the first test and the rest for the second |
| Seqs.Filter | scripts/create_my_dataset.py:43-44 | `filter` keeps exactly the passing rows: it has as many rows as pass, and every row passes |
| Seqs.FilterMultiset | scripts/create_my_dataset.py:43-44 | `filter` keeps every passing row as often as it occurs, and nothing else |
| Seqs.FilterConcat | scripts/create_my_dataset.py:67 | filtering a concatenation concatenates the filtered parts |
| Seqs.FilterAll | scripts/create_my_dataset.py:67 | a table whose rows all pass is unchanged by `filter` |
| Seqs.CountPermutation | scripts/create_my_dataset.py:41 | counting rows does not depend on their order |
| Seqs.MapPermutation | scripts/create_my_dataset.py:62 | two orderings of the same rows map to two orderings of the same images |
| Seqs.PermuteKeepsRows | scripts/create_my_dataset.py:96 | a shuffle keeps every row exactly as often as it was there |
| Seqs.InsertBy | scripts/create_my_dataset.py:41 | inserting a row into a sorted table keeps it sorted and adds exactly that row |
| Seqs.SortBy | scripts/create_my_dataset.py:41 | `sort` on a column gives a table sorted by that column with exactly the same rows |
| Text.Split | scripts/prompt_rewriter.py:321 | `split` on one character gives at least one piece, none holding the separator, and joining them back gives the text |
| Text.SplitJoin | scripts/prompt_rewriter.py:141 | splitting a join of separator-free pieces gives the pieces back |
| Text.JoinTakeIsPrefix | scripts/prompt_rewriter.py:461 | the join of the first m words is a prefix of the join of all of them |
| Text.StripEdges | scripts/prompt_rewriter.py:113 | a stripped text neither starts nor ends with whitespace |
| Text.StripEmpty | scripts/prompt_rewriter.py:113 | a text strips to nothing exactly when it is all whitespace |
| Text.StripContained | scripts/prompt_rewriter.py:113 | a stripped text occurs in the original |
| Text.StripIdempotent | scripts/prompt_rewriter.py:128-129 | stripping twice is stripping once |
| Text.IntToStringRoundTrip | scripts/prompt_rewriter.py:446 | `str(k)` is a sign exactly for negative k, followed by digits that read back as the absolute value |
| Text.LexLeTotal | scripts/create_my_dataset.py:41 | any two keys are ordered one way or the other |
| Text.LexLeTransitive | scripts/create_my_dataset.py:62 | the key order is transitive |

## Where the code is followed over its description

- `create_prompts` and `add_instructions` fail only when a loop body runs with
  a language other than "en" and "it": the template variable is unbound on the
  first round. With nothing to loop over they succeed with empty results.
- The request loop of `zeroshot_prompt` appends only inside its "en"/"it"
  branches. Another language therefore sends no prompt at all, rather than
  failing.
- `create_messages` is English only. It branches on `num_examples == 0`, so a
  negative k takes the sampling path and fails there.
- The run name gets "_instructions" on the non-chat path with k != 0 and the
  flag set. k != 0 includes negative k, not only k > 0.
- Rows whose rewrite is "None" are dropped from the context corpus only. The
  Set-N rows are not filtered.
- The context balance is exact only for an even number of rows. With every
  row labelled, n/2 rows are F and n - n/2 are M. Rows labelled neither F nor M
  are dropped, while the split point n/2 still counts them.
- `select(range(a, b))` follows the datasets library: an empty table comes back
  unchanged, and otherwise the range must start at an existing row and end at
  most at the last one. So with unlabelled rows, balancing fails when the pool
  has at most n/2 rows, and succeeds with no rows when the pool is empty.

## Left out

- File and hub I/O: `load_dataset`, `read_csv`, `readlines`, `to_csv` and
  `write_predictions`. Tables and lists are parameters instead.
- `collect_preprocess_data` (scripts/prompt_rewriter.py:40-56) only loads and
  concatenates files. `BalanceNeoGate` models its balancing step.
- Model loading, quantization configs, tokenization, `generate`, `decode`, chat
  templates and the encoder fusion of `get_encoder_outputs`. These are foreign
  ML calls. The model keeps the prompt text of `kshot_prompt` for the
  decoder-only workflow (line 305) and of `zeroshot_prompt` (lines 374-384),
  and the last-line trimming of their decoded outputs (lines 321 and 399).
  `complete_chat` sends the chat turns unchanged and keeps the decoded output
  untrimmed, so only `create_messages` is modelled for it.
- `random.sample` and `.shuffle()` draw random numbers. Their outcomes are
  parameters: k distinct positions per request, and a permutation.
- The size arithmetic of `train_test_split(test_size=0.1)` is float rounding
  inside the library. The split is taken at a cut the caller gives.
- Argument parsing and progress printing. `main` reads `args.workflow`, while
  the parser defines `framework`. The truncated `inputs` and `labels` are never
  passed to the prompt builders. So truncation is modelled on its own
  (`TruncateWords`), and the run name on its own (`RunName`).
- `load_model` fails for a quantization other than None, 4 and 8. `RunName`
  models only the name, which is built before the model is loaded.
- The counter `i` of `create_prompts` is never read, so it is not modelled.
- BalanceContext: the library `select` itself is not part of this model.
  Its bounds check is modelled after the datasets library's behaviour
  described above.
- StrippedSources, StrippedTargets: the inner append loop of `create_messages`
  (scripts/prompt_rewriter.py:198-202) is modelled as two functions over the
  sampled batch, not as a loop.
- Columns are modelled as record fields. Renaming and removing columns are the
  shapes of `TagSetN` and `TagContext`; only `reorder` works on a
  column-by-column table.
- The library's sort is modelled as a stable insertion sort in code-point
  order. Its own algorithm is not modelled.
- The rewrite column is compared with the literal "None". Missing values that a
  reader might parse as NA are not modelled.
- Augment: the loop visits the splits in an unspecified order, where Python
  uses the dictionary's key order; the result does not depend on it.
