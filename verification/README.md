# MongooseMiner data rules, modelled in Dafny

MongooseMiner builds a code-search demo. It embeds function code and
docstrings from a code-search dataset, indexes the vectors for
approximate nearest-neighbour search, and measures how well documentation
vectors retrieve their code (and the other way round). The nearest-neighbour
index and the embedding service are outside libraries and services. This
project models the rules the repository itself implements around them:

- `CleanTestset` (`clean_testset.dfy`): the comment and docstring stripper
  used to clean the test set. It is a single scan over the Python token
  stream with the running state `out`, `prev_toktype`, `last_lineno` and
  `last_col`. Around it sit the wrapper that falls back to the original
  source when tokenizing raises, and the dataset step that cleans every
  row's code and drops rows whose cleaned code is empty. The scan is an
  imperative method with a `for` loop. It is proved equal to `Stripped`, a
  reference definition that computes each token's contribution from the
  token and its predecessor alone. The token-level rules are stated as
  lemmas about where each token's contribution (`Slot`) lies in the output.
- `Eval` (`eval.dfy`): recall@1 and recall@10 of `eval_similarity`.
  Reference row i carries key i. The search answers are inputs: one key row
  per query. The counts are recursive functions, and lemmas tie them to
  their set-cardinality definitions, bound them, relate them to each other
  and characterise perfect retrieval.
- `Embed` (`embed.dfy`): `truncate`, which overwrites a row's code and
  documentation strings in place with their prefixes of `max_len`
  characters. The row is a class with a `fields` map. Python's slice
  `s[:n]`, including its meaning for negative `n`, is `SlicePrefix`.
- `GetEmbs` (`get_embs.dfy`): the length filter that keeps rows whose two
  text columns are both shorter than 10000 characters.
- `Rows` (`rows.dfy`): the row representation shared by the above. A row is
  a map from column name to a value that is text, null (a missing value in
  the parquet column) or some other opaque value. `Filter` is the
  order-preserving row filter that both dataset filters use.

## Model

| member | source | states |
|---|---|---|
| `CleanTestset.Spaces` | utils/clean_testset.py:47 | `" " * n` is exactly `n` blanks when `n` is positive and nothing otherwise |
| `CleanTestset.StripCommentsAndDocstrings` | utils/clean_testset.py:24-81 | the token loop returns exactly `Stripped(tokens)`; its loop invariants hold `prev_toktype`, `last_col` and `last_lineno` equal to the previous token's type, end column and end line (INDENT, 0 and -1 before the first token) |
| `CleanTestset.RemoveCommentsAndDocstrings` | utils/clean_testset.py:18-22 | when tokenizing raises, the source comes back unchanged; otherwise the result is the stripped text |
| `CleanTestset.CleanCode` | utils/clean_testset.py:18-28 | a string becomes the wrapper's result on that string; a null code is read as the empty source (`StringIO(None)` is empty), so it becomes the stripped empty source, unless the stripper raises, when the wrapper returns the null itself; any other value comes back unchanged, since the stripper raises on it and the wrapper returns its input; the result is a string exactly when the input was a string, or a null the stripper did not raise on |
| `CleanTestset.NonEmptyCode` | utils/clean_testset.py:10 | the row mask `func_code_string != ""`: a string code passes exactly when it is not empty, and a non-string code always passes |
| `CleanTestset.CleanRow` | utils/clean_testset.py:9 | the row keeps its set of columns and every column except the code column; the code column holds the cleaned code |
| `CleanTestset.CleanedColumn` | utils/clean_testset.py:9 | one output row per input row, row i being row i with its code cleaned by its own token stream |
| `CleanTestset.CleanDataset` | utils/clean_testset.py:7-10 | the result is the cleaned rows filtered by the non-empty mask, in order; each cleaned row occurs as often as in the cleaned column when its code is non-empty and not at all otherwise; every kept row has a non-empty cleaned code; every row whose cleaned code is not `""` is kept; no rows are added |
| `CleanTestset.CleanedColumnAppend` | utils/clean_testset.py:9 | cleaning is row by row: the cleaned column of two batches is the cleaned columns of each, concatenated |
| `CleanTestset.CleanDatasetAppend` | utils/clean_testset.py:9-10 | the dataset step keeps the input order: on two batches it yields the survivors of the first followed by those of the second |
| `CleanTestset.BlankTokensStripToEmpty` | utils/clean_testset.py:34-78 | a token stream whose tokens all have empty text and start in column 0 strips to the empty string |
| `CleanTestset.NullCodeRowDropped` | utils/clean_testset.py:9-10 | a row whose code is null, tokenized without an exception, gets the empty string as cleaned code and is dropped from the cleaned dataset |
| `CleanTestset.NullCodeRaisedRowKept` | utils/clean_testset.py:18-22 | when the stripper raises on a null code, the row keeps its null and stays in the cleaned dataset, since None is not `""` |
| `CleanTestset.Keeps` | utils/clean_testset.py:49-75 | the keep test of the loop: a COMMENT is never written; a STRING right after INDENT or NEWLINE, or starting in column 0, is not written; any other STRING, and every other token, is written |
| `CleanTestset.PrefixGrows` | utils/clean_testset.py:34-78 | the output only grows at its end: the output after i tokens is a prefix of the output after j ≥ i tokens |
| `CleanTestset.TokenSlot` | utils/clean_testset.py:44-75 | token i's contribution sits whole between offsets i and i+1 of the final output, so contributions appear in input order with nothing between them |
| `CleanTestset.AlignmentPrecedesToken` | utils/clean_testset.py:44-47 | every token's contribution, kept or dropped, starts with `start_col - last_col` blanks. `last_col` is 0 for the first token and for a token on a later line than the previous token's end, and the previous token's end column otherwise |
| `CleanTestset.CommentDropped` | utils/clean_testset.py:49-50 | a COMMENT token contributes only blanks, never its text |
| `CleanTestset.DocstringAfterIndentOrNewlineDropped` | utils/clean_testset.py:52-55 | a STRING token first in the stream or right after INDENT or NEWLINE contributes only its alignment blanks |
| `CleanTestset.LeadingStringDropped` | utils/clean_testset.py:30 | because `prev_toktype` starts as INDENT, a STRING as the first token contributes only `start_col` blanks |
| `CleanTestset.ColumnZeroStringDropped` | utils/clean_testset.py:62 | a STRING token starting in column 0 contributes nothing, whatever precedes it |
| `CleanTestset.InnerStringKept` | utils/clean_testset.py:53-64 | a STRING token after neither INDENT nor NEWLINE and starting after column 0 contributes its blanks followed by its exact text |
| `CleanTestset.CodeTokenKept` | utils/clean_testset.py:74-75 | every token that is neither COMMENT nor STRING contributes its blanks followed by its exact text |
| `Eval.Top1Count` | embeddings/eval.py:10 | the recall@1 numerator over the first m rows is at most m |
| `Eval.TopKCount` | embeddings/eval.py:11 | the recall@10 numerator over the first m rows is at most m |
| `Eval.EvalSimilarity` | embeddings/eval.py:5-11 | the result is defined exactly when both key matrices have one row per reference row; both recalls then have `len(x)` as denominator; the recall@1 numerator is the number of rows i whose single key is i, the recall@10 numerator the number of rows i with i among their keys, both at most `len(x)`; with at least one row both recall values lie in [0, 1] |
| `Eval.RatioInUnitInterval` | embeddings/eval.py:10-11 | a count of at most `total` rows divided by a positive `total` lies in [0, 1] |
| `Eval.Top1CountIsCardinality` | embeddings/eval.py:7-10 | with reference row i keyed i, the recall@1 numerator is the number of rows i whose single returned key equals i |
| `Eval.TopKCountIsCardinality` | embeddings/eval.py:7-11 | the recall@10 numerator is the number of rows i for which i occurs anywhere among that row's returned keys |
| `Eval.Top1AllHitsIff` | embeddings/eval.py:10 | the recall@1 numerator equals the row count if and only if every row i returned key i |
| `Eval.TopKAllHitsIff` | embeddings/eval.py:11 | the recall@10 numerator equals the row count if and only if every row i has i among its keys |
| `Eval.TopKCoversTop1` | embeddings/eval.py:8-11 | when each row's top-1 key is the first of its top-10 keys, the recall@10 numerator is at least the recall@1 numerator |
| `Eval.PerfectRetrieval` | embeddings/eval.py:10-11 | when every query row i's answers start with key i, the evaluation succeeds and both recalls equal 1 |
| `Embed.SlicePrefix` | embeddings/embed.py:22 | Python's `s[:n]` is a prefix of `s`, of length `min(n, len(s))` for `n ≥ 0` and `max(0, len(s) + n)` for negative `n` |
| `Embed.TruncatedFields` | embeddings/embed.py:22-23 | both text columns become prefixes of their old values of exactly Python's slice length: `min(len, max_len)` characters for `max_len ≥ 0`, and `max(0, len + max_len)` for negative `max_len`; they are unchanged when already no longer than `max_len`; the set of columns and every other column are unchanged |
| `Embed.Truncate` | embeddings/embed.py:21-24 | overwrites the row in place with `TruncatedFields` of its old fields and returns the same row object; `max_len` defaults to 8192 |
| `Embed.SlicePrefixIdempotent` | embeddings/embed.py:22 | slicing twice to the same non-negative length is slicing once |
| `Embed.TruncateIdempotent` | embeddings/embed.py:22-23 | `truncate` applied twice with the same non-negative `max_len` equals applying it once |
| `Embed.NegativeMaxLenNotIdempotent` | embeddings/embed.py:22-23 | with `max_len = -1`, a second `truncate` shortens the code again ("ab" becomes "a", then "") |
| `Rows.Filter` | embeddings/get_embs.py:16 | the filtered rows are no more than the input rows, and a row occurs in the result exactly when it occurs in the input and passes the test |
| `Rows.FilterCounts` | utils/clean_testset.py:10 | a passing row occurs in the result as often as in the input; a failing row does not occur at all |
| `Rows.FilterAppend` | embeddings/get_embs.py:16 | filtering keeps the input order: filtering two batches is filtering each and concatenating |
| `GetEmbs.ShortEnough` | embeddings/get_embs.py:16 | a code string of 10000 characters or more fails without reading the documentation; otherwise the row passes exactly when the documentation is shorter than 10000 characters |
| `GetEmbs.FilterByLength` | embeddings/get_embs.py:16 | the result is the input filtered by the lambda, in order; a passing row occurs as often as in the input and a failing one not at all; every kept row is an input row with both text columns shorter than 10000 characters; every input row with both columns that short is kept, and every row whose code has 10000 characters or more is dropped, whatever its documentation holds |
| `GetEmbs.FilterByLengthAppend` | embeddings/get_embs.py:16 | the length filter keeps the input order: on two batches it yields the survivors of the first followed by those of the second |
| `GetEmbs.BoundaryRowDropped` | embeddings/get_embs.py:16 | the bound is strict: a row with a column of exactly 10000 characters is dropped |
| `GetEmbs.LongCodeNullDocDropped` | embeddings/get_embs.py:16 | a row whose code has 10000 characters and whose documentation is None is inside the filter's domain and is dropped |

## Left out

- Python's tokenizer (`tokenize.generate_tokens`) is not part of this model. The stripper receives its token stream, or the fact that it raised, as input. `Raised` stands for any exception inside the stripper: one from the tokenizer, or one from the `pprint` of the result (a broken pipe, a stdout that cannot encode the text), which runs inside the same `try`. Such an error is modelled as all-or-nothing. That matches the source, because the wrapper discards any partial output and returns its argument.
- `CleanTestset.NullCodeRowDropped` assumes that the tokenizer, given the empty source, yields only tokens with empty text at column 0 and the stripper does not raise (in Python it yields a single ENDMARKER at line 1, column 0). The tokenizer is not modelled, so this is stated as a precondition.
- What the `pprint` debug print of the stripper writes is left out as I/O (its failure is `Raised`, above); so are the parquet and pandas reading and writing around `clean_dataset`.
- The nearest-neighbour index (the `usearch` library), with its graph, cosine metric and half-precision storage, is not part of this model. Its search answers are the key matrices given to `EvalSimilarity`.
- `Eval.EvalSimilarity` treats any row-count mismatch as a failure. numpy would instead broadcast when the query count or the reference count is 1; that corner case is not modelled.
- Recall is kept as an integer count over a row count. `Recall.Value` is its exact rational value, defined only for at least one row. Floating-point division, and the NaN numpy yields for zero rows, are not modelled.
- The embedding HTTP client with its retry loops, the dataset download, and the 16-process parallel `map` are left out as network and concurrency.
- `GetEmbs.FilterByLength` requires every row to be `Measurable`: its code holds text, and so does its documentation when the code is shorter than 10000 characters. Python's `and` does not read the documentation beside a long code, so such a row is dropped whatever its documentation holds. Outside that domain, None or a number raises inside `len` and aborts the whole filter; that crash is not modelled, and neither is the length of other non-string values such as lists.
- `Embed.Truncate` requires both columns to hold text. In the source, a missing column or a None or numeric value raises, and other non-string values such as lists are sliced like strings; neither is modelled.
- The chat front end, the package miner and the package installer are not part of this model. They are orchestration around remote services, reflection and subprocesses.
