# Retrieval core and prompt quota of a small RAG backend, in Dafny

This project models the parts of the insurance-plan question-answering
backend that hold its own logic. Each part keeps the shape of the code it
models: pure Python expressions become functions, loops become methods with
invariants, and the quota dictionary becomes a class.

- **Ingestion**, from `PDFEmbeddingGenerator` (`embedding_service.py`):
  - Text normalisation (`preprocess_text`).
  - Greedy sentence chunking (`chunk_text`), as a loop proved equal to a
    specification function.
  - Row assembly over the company and category folders (`process_all_pdfs`).
  - The split of the table into an embedding matrix and an aligned metadata
    table (`save_embeddings`).
- **Search**, from `EmbeddingSearcher.search` (`similarity_search.py`):
  - The top-k selection `np.argsort(s)[-top_k:][::-1]`, with Python's slice
    rules.
  - The loop that builds the result list from the metadata rows.
- **Context**, from `RAGService.get_relevant_context` (`rag_service.py`): the
  newline join of the ranked texts.
- **The `/ask` endpoint**, from `ronanmain.py`:
  - The per-user daily quota `can_user_ask`, over the global table
    `user_prompts`.
  - The JSON date encoding of that table (`save_data` / `load_data`).
  - The ordered request guards.
  - The loop that formats the conversation history.

Files:

- `wrappers.dfy`: `Option` and `Result`.
- `seqs.dfy`: generic sequence facts (mapping, splitting off the head or the
  last element) that the other modules share.
- `text.dfy`: the Python string operations the code uses:
  - `str.isspace` and `\s`;
  - `strip`;
  - `sep.join`;
  - `split(c)`;
  - `split()`.
- `preprocess.dfy`: `preprocess_text`.
- `chunker.dfy`: `chunk_text`.
- `ingestion.dfy`: `process_all_pdfs` and `save_embeddings`.
- `search.dfy`: top-k selection and `search`.
- `rag.dfy`: `get_relevant_context`.
- `dates.dfy`: `strftime('%Y-%m-%d')` and `strptime(..., '%Y-%m-%d')`.
- `quota.dfy`: `can_user_ask`, `save_data` and `load_data`.
- `api.dfy`: the `ask` guards and the history loop of `generate_response`.

External capabilities are parameters of the model:

- The sentence tokenizer and the embedder are function values in
  `Ingestion.Pipeline`.
- The similarity scores and the order `np.argsort` gives them are arguments
  of `Search`. Any permutation that sorts the scores ascending is accepted,
  since `np.argsort`'s default sort is unstable.
- Today's date is an argument of the quota.
- The PDF text of each file and the folder listing are inputs of
  `ProcessAllPdfs`.

## Model

| member | source | states |
|---|---|---|
| Text.SkipSpace | backend/app/services/embedding_service.py:28 | the first non-whitespace position at or after `i`, with only whitespace skipped |
| Text.SkipSpaceBack | backend/app/services/embedding_service.py:28 | the position just after the last non-whitespace character before `j`, with only whitespace skipped |
| Text.StripLeft | backend/app/services/embedding_service.py:28 | the result is a suffix of the input; it starts with no whitespace; everything removed was whitespace |
| Text.Strip | backend/app/services/embedding_service.py:28 | `s.strip()` is the slice of `s` from its first non-whitespace character, with no whitespace at either end; every character cut off on either side is whitespace |
| Text.StripEmptyIffAllSpace | backend/app/services/embedding_service.py:53-58 | `s.strip()` is empty exactly when `s` is all whitespace |
| Text.SplitOn | backend/app/services/rag_service.py:11 | `s.split(c)` always yields at least one field, even for the empty text |
| Text.JoinWith | backend/app/services/rag_service.py:11 | joining no fields gives the empty text; a join starts with its first field |
| Text.TakeWord | backend/ronanmain.py:187 | the first word is a whitespace-free prefix ending at whitespace or at the end of the text |
| Text.Words | backend/ronanmain.py:187 | `s.split()` is empty exactly when `s` is all whitespace |
| Text.WordsAreWords | backend/ronanmain.py:187 | every field of `s.split()` is nonempty and holds no whitespace |
| Text.SplitJoin | backend/app/services/rag_service.py:11 | splitting a `c`-join of fields free of `c` on `c` gives the fields back |
| Text.JoinSplit | backend/app/services/rag_service.py:11 | joining the fields of `s.split(c)` with `c` gives `s` back, for every `s` |
| Text.SplitNoSep | backend/app/services/rag_service.py:11 | a text without `c` splits into itself; a `c` after it starts a new field |
| Text.JoinAppend | backend/app/services/embedding_service.py:51 | joining two nonempty lists one after the other is joining them around one separator |
| Text.WordsOfJoin | backend/ronanmain.py:187 | `" ".join(ws).split() == ws` for nonempty words without whitespace |
| Text.WordsBeforeSpace | backend/ronanmain.py:187 | a word followed by a space is the first word of the split |
| Text.WordsOfWord | backend/ronanmain.py:187 | a word followed by whitespace or nothing is the first word of the split |
| Text.TakeWordOf | backend/ronanmain.py:187 | the first word of `w + t` is `w` when `t` starts with whitespace or is empty |
| Text.LeadingSpaceSkipped | backend/ronanmain.py:187 | a leading space does not change the word list |
| Text.SpaceSkipped | backend/ronanmain.py:187 | any one leading whitespace character does not change the word list |
| Text.WordsOfStripLeft | backend/ronanmain.py:187 | leading whitespace does not change the word list |
| Text.WordsTrailingSpace | backend/ronanmain.py:187 | trailing whitespace does not change the word list |
| Text.WordsOfStrip | backend/app/services/embedding_service.py:28 | `s.strip().split() == s.split()`: stripping keeps every word, in order |
| Preprocess.ReplaceDisallowed | backend/app/services/embedding_service.py:26 | the substitution keeps the length; every disallowed character becomes a space, every allowed one is kept, and the output holds only word characters, whitespace and dots |
| Preprocess.CollapseSpaces | backend/app/services/embedding_service.py:27 | collapsing whitespace runs never lengthens the text, and the result is empty exactly when the input is |
| Preprocess.CollapseHead | backend/app/services/embedding_service.py:27 | the collapsed text starts with a space exactly when the input starts with whitespace |
| Preprocess.CollapseLast | backend/app/services/embedding_service.py:27 | the collapsed text ends in a space exactly when the input ends in whitespace |
| Preprocess.CollapseWord | backend/app/services/embedding_service.py:27 | a run of non-whitespace characters in front passes through the collapse unchanged |
| Preprocess.CollapseKeepsWords | backend/app/services/embedding_service.py:27 | collapsing whitespace keeps every word, in order: `re.sub(r'\s+', ' ', s).split() == s.split()` |
| Preprocess.CollapseSingleSpaced | backend/app/services/embedding_service.py:27 | after collapsing, whitespace is only single spaces, never two in a row |
| Preprocess.CollapseClean | backend/app/services/embedding_service.py:26-27 | collapsing text of word characters, whitespace and dots leaves only word characters, spaces and dots |
| Preprocess.SliceClean | backend/app/services/embedding_service.py:28 | stripping cannot bring back a disallowed character: any slice of clean text is clean |
| Preprocess.SliceSingleSpaced | backend/app/services/embedding_service.py:28 | stripping cannot create a double space: any slice of single-spaced text is single-spaced |
| Preprocess.StripNormalizes | backend/app/services/embedding_service.py:28 | stripping clean, single-spaced text gives normalised text |
| Preprocess.PreprocessText | backend/app/services/embedding_service.py:23-28 | the output holds only word characters, single spaces and dots, with no space at either end, and is never longer than the input |
| Preprocess.PreprocessWords | backend/app/services/embedding_service.py:23-28 | the words of `preprocess_text(s)` are exactly the words of `s` with every disallowed character made a space, in order |
| Preprocess.CollapseFixes | backend/app/services/embedding_service.py:27 | clean, single-spaced text is a fixed point of the whitespace collapse |
| Preprocess.NormalizedFixed | backend/app/services/embedding_service.py:23-28 | normalised text is a fixed point of `preprocess_text` |
| Preprocess.PreprocessIdempotent | backend/app/services/embedding_service.py:23-28 | `preprocess_text(preprocess_text(t)) == preprocess_text(t)` |
| Chunker.Step | backend/app/services/embedding_service.py:50-55 | one loop step ends with the sentence last in the buffer; a sentence that fits is appended to the open group; the open group is closed only when it is nonempty and the sentence does not fit |
| Chunker.Groups | backend/app/services/embedding_service.py:49-58 | the groups are a greedy partition: they flatten to the input, none is empty, and a group was closed only because the next sentence did not fit (`len(buffer) + len(next) > chunk_size`) |
| Chunker.ChunkOf | backend/app/services/embedding_service.py:54-58 | a chunk has no whitespace at either end and is shorter than its buffer, which loses at least its trailing space |
| Chunker.Chunks | backend/app/services/embedding_service.py:49-60 | one chunk per group, and no chunks exactly when there are no sentences |
| Chunker.ChunkText | backend/app/services/embedding_service.py:43-60 | the loop returns exactly the chunks of the greedy packing specification; no sentences give no chunks |
| Chunker.PackSnoc | backend/app/services/embedding_service.py:49-55 | the packing state after one more sentence is one loop step applied to the state before it |
| Chunker.AccumEmpty | backend/app/services/embedding_service.py:53-57 | the buffer is empty exactly when it holds no sentence, so `if current_chunk` tests for an open group |
| Chunker.AccumSnoc | backend/app/services/embedding_service.py:51 | appending a sentence appends it and one space to the buffer |
| Chunker.FlattenSnoc | backend/app/services/embedding_service.py:54 | closing a group appends its sentences to the flattened output |
| Chunker.StepOk | backend/app/services/embedding_service.py:50-55 | one loop step keeps the invariant: closed groups nonempty and full, order kept, each sentence fitted when it was added |
| Chunker.PackAllOk | backend/app/services/embedding_service.py:49-55 | the invariant holds after every prefix; a nonempty input leaves an open buffer |
| Chunker.GreedyUnique | backend/app/services/embedding_service.py:49-58 | there is only one greedy partition of a sentence list, so the greedy rule determines every chunk boundary |
| Chunker.SameFirstGroup | backend/app/services/embedding_service.py:50-55 | the first group of a greedy partition is at least as long as the first group of any other |
| Chunker.LongerPrefixOverflows | backend/app/services/embedding_service.py:50-55 | any run of sentences longer than the first greedy group would have overflowed the buffer |
| Chunker.TailGreedy | backend/app/services/embedding_service.py:49-58 | dropping the first group of a greedy partition leaves a greedy partition of the remaining sentences |
| Chunker.FlattenMember | backend/app/services/embedding_service.py:49-58 | every sentence of every group is one of the input sentences |
| Chunker.AccumLast | backend/app/services/embedding_service.py:51 | a nonempty buffer ends in the space appended after its last sentence |
| Chunker.StripDropsTrailingSpace | backend/app/services/embedding_service.py:53-58 | stripping the buffer removes at least its trailing space |
| Chunker.GroupChunkBound | backend/app/services/embedding_service.py:50-55 | the chunk of a group is at most `chunk_size` long, or the group is one sentence that alone exceeds it |
| Chunker.ChunkSizeBound | backend/app/services/embedding_service.py:50-55 | every chunk has at most `chunk_size` characters unless it is exactly one sentence longer than `chunk_size` |
| Chunker.ChunksNonEmpty | backend/app/services/embedding_service.py:45-60 | if no sentence is empty or all whitespace, no chunk is empty |
| Chunker.AccumIsJoin | backend/app/services/embedding_service.py:51 | the buffer of a group is the `" ".join` of its sentences plus a trailing space |
| Chunker.JoinEnds | backend/app/services/embedding_service.py:51 | a join of trimmed sentences is itself trimmed |
| Chunker.StripPadded | backend/app/services/embedding_service.py:53-58 | `(j + " ").strip() == j` for trimmed `j` |
| Chunker.ChunkIsJoin | backend/app/services/embedding_service.py:51-58 | the chunk of a group of trimmed sentences is their `" ".join` |
| Chunker.JoinOfJoins | backend/app/services/embedding_service.py:49-58 | joining the joins of nonempty groups is joining their flattening |
| Chunker.ChunksPreserveText | backend/app/services/embedding_service.py:49-58 | for trimmed sentences `" ".join(chunks) == " ".join(sentences)`: nothing dropped, duplicated or reordered |
| Ingestion.ExtractText | backend/app/services/embedding_service.py:30-41 | a readable file gives `preprocess_text` of its page text, so normalised text; a file that fails to read gives the empty text |
| Ingestion.FileRows | backend/app/services/embedding_service.py:79-96 | a file with empty extracted text adds no rows; otherwise its rows are its chunks numbered 0..n-1, each with company, category, file name, chunk text and that text's embedding |
| Ingestion.ChunkRows | backend/app/services/embedding_service.py:87-96 | the `enumerate(chunks)` rows: row `i` has `chunk_idx == i`, chunk `i` as its text and that text's embedding |
| Ingestion.FolderRows | backend/app/services/embedding_service.py:72-96 | every row from one folder carries that folder's company and category |
| Ingestion.CompanyRows | backend/app/services/embedding_service.py:71-96 | every row from one company carries that company and one of the listed categories |
| Ingestion.AllRows | backend/app/services/embedding_service.py:70-96 | every row of the table carries one of the listed companies and one of the listed categories |
| Ingestion.FolderRowsSnoc | backend/app/services/embedding_service.py:77-96 | the rows of one more file are the earlier rows followed by that file's rows |
| Ingestion.CompanyRowsSnoc | backend/app/services/embedding_service.py:71-96 | one more category folder appends its rows; a missing folder appends none |
| Ingestion.AllRowsSnoc | backend/app/services/embedding_service.py:70-96 | one more company appends its rows |
| Ingestion.ProcessAllPdfs | backend/app/services/embedding_service.py:66-98 | the nested loops build exactly the table of the row specification, company by company, then category, file and chunk |
| Ingestion.AppendCompany | backend/app/services/embedding_service.py:71-96 | the category loop appends the rows of the company's existing folders, category by category |
| Ingestion.AppendFolder | backend/app/services/embedding_service.py:76-96 | the file loop appends the rows of the folder's files in listing order |
| Ingestion.AppendFile | backend/app/services/embedding_service.py:79-96 | one file appends its chunk rows, or nothing when its extracted text is empty |
| Ingestion.AppendChunks | backend/app/services/embedding_service.py:87-96 | the `enumerate(chunks)` loop appends one row per chunk, in order |
| Ingestion.Embeddings | backend/app/services/embedding_service.py:106 | the matrix has one row per record, holding that record's embedding |
| Ingestion.MetadataTable | backend/app/services/embedding_service.py:110 | the metadata table has one row per record, holding that record without its embedding |
| Ingestion.SaveSplit | backend/app/services/embedding_service.py:100-111 | the save fails exactly when there are no rows or the embeddings differ in length; otherwise the matrix and the table have equal length and row `i` of each describes record `i` |
| Ingestion.Combine | backend/app/services/embedding_service.py:106-111 | zipping the matrix and the table row by row gives records carrying row `i` of each |
| Ingestion.SaveThenCombine | backend/app/services/embedding_service.py:100-111 | zipping what was saved gives back the table |
| Ingestion.CombineThenSave | backend/app/services/embedding_service.py:100-111 | saving the zip of an aligned, nonempty, stackable pair gives back that pair |
| Search.Indices | backend/similarity_search.py:35 | the set of row indices `0..n-1` |
| Search.Reversed | backend/similarity_search.py:35 | `xs[::-1]` has the same length, with element `i` taken from position `n-1-i` |
| Search.SliceStart | backend/similarity_search.py:35 | the start of `xs[start:]` lies within the sequence |
| Search.ResultCount | backend/similarity_search.py:35 | the slice `[-k:]` keeps at most `n` rows: `n` minus the start index Python computes for `-k` |
| Search.TopIndices | backend/similarity_search.py:35 | the selection has `ResultCount(n, k)` entries, entry `t` being `order[n-1-t]`: the last entries of the argsort read backwards |
| Search.TopIndicesCorrect | backend/similarity_search.py:35 | whatever order argsort picks among ties, the selection has the right length, is distinct, in range and non-increasing by score, and no omitted row scores above a selected one |
| Search.TopIndicesSorted | backend/similarity_search.py:35 | the selected indices are distinct, in `[0, N)` and non-increasing by score |
| Search.TopIndicesDominate | backend/similarity_search.py:35 | every index not selected scores at most as high as every selected one |
| Search.RankedUnique | backend/similarity_search.py:35 | with distinct scores, two ranked selections of the same length from the same pool are equal |
| Search.FirstIsBest | backend/similarity_search.py:35 | the first row of a ranked selection scores at least as high as every row of its pool |
| Search.RankedTail | backend/similarity_search.py:35 | dropping the best row leaves a ranked selection of the rest of the pool |
| Search.TopKUnique | backend/similarity_search.py:35 | with distinct scores every correct top-k answer is the one the slice gives |
| Search.TieSortsBothWays | backend/similarity_search.py:35 | with two equal scores both orders are valid argsort results |
| Search.TieRanksBothWays | backend/similarity_search.py:35 | those two orders give the two rows back in opposite orders, so ties are not ordered |
| Search.Assemble | backend/similarity_search.py:38-47 | the result loop fails, with a missing-metadata error, exactly when a selected row has no metadata row; otherwise it has one hit per selected row, in order, carrying that row's score and metadata |
| Search.EmbeddingSearcher.constructor | backend/similarity_search.py:8-12 | the searcher holds the loaded matrix and metadata table |
| Search.EmbeddingSearcher.Search | backend/similarity_search.py:16-49 | the result loop returns exactly the specified answer: an error for an empty store or a selected row with no metadata row, else one hit per selected row |
| Search.EmbeddingSearcher.Answer | backend/similarity_search.py:32-47 | the search succeeds iff the store is nonempty and every selected row has metadata (always, when the table is long enough); an empty store is an error; result `i` carries row `idx_i`'s score and metadata, and the indices are a correct top-k answer |
| Rag.Texts | backend/app/services/rag_service.py:11 | `[r['text'] for r in results]`, one text per result in order |
| Rag.Context | backend/app/services/rag_service.py:11 | the join succeeds exactly when the search did and passes its error on; no results give the empty text; otherwise the context starts with the best result's text |
| Rag.RelevantContext | backend/app/services/rag_service.py:9-11 | the context is produced iff the store is nonempty and every selected row has metadata; otherwise the error is the empty store or the missing metadata |
| Rag.ContextOfFewResults | backend/app/services/rag_service.py:11 | no results give the empty string; one result gives its text |
| Rag.ContextSplitsBack | backend/app/services/rag_service.py:11 | if no text holds a newline, splitting the context on newlines gives the ranked texts back |
| Rag.ContextRejoins | backend/app/services/rag_service.py:11 | splitting and re-joining the context on newlines reproduces it |
| Rag.DefaultContextLines | backend/app/services/rag_service.py:9-11 | with the default `top_k` of 3 and `N >= 1` rows with metadata, the context has `min(3, N)` lines: the texts of the best rows, best first |
| Dates.DigitChar | backend/ronanmain.py:140 | a digit value becomes an ASCII digit |
| Dates.DigitValue | backend/ronanmain.py:133 | an ASCII digit has a value from 0 to 9 |
| Dates.Pad2 | backend/ronanmain.py:140 | `%m` and `%d` write two digits |
| Dates.Pad4 | backend/ronanmain.py:140 | `%Y` writes four digits |
| Dates.Value2 | backend/ronanmain.py:133 | two digits read as a number from 0 to 99 |
| Dates.Value4 | backend/ronanmain.py:133 | four digits read as a number from 0 to 9999 |
| Dates.Pad2Value | backend/ronanmain.py:133-140 | reading two written digits gives the number back |
| Dates.Value2Pad | backend/ronanmain.py:133-140 | writing the value of two digits gives the digits back |
| Dates.Pad4Value | backend/ronanmain.py:133-140 | reading four written digits gives the number back |
| Dates.Value4Pad | backend/ronanmain.py:133-140 | writing the value of four digits gives the digits back |
| Dates.FormatDate | backend/ronanmain.py:140 | `strftime('%Y-%m-%d')` writes the zero-padded form `YYYY-MM-DD` |
| Dates.FieldValue | backend/ronanmain.py:133 | a two-digit month field reads as 1 to 12, a day field as 1 to 31 |
| Dates.ParseDate | backend/ronanmain.py:133 | whatever `strptime` accepts is a real date in years 1 to 9999 |
| Dates.CanonicalFields | backend/ronanmain.py:133 | a zero-padded date text splits into its month and day fields |
| Dates.ParseFormat | backend/ronanmain.py:133-140 | parsing a written date gives the same date |
| Dates.FormatParse | backend/ronanmain.py:133-140 | re-writing a parsed date reproduces the text exactly when the text was zero-padded |
| Quota.SaveTable | backend/ronanmain.py:138-142 | the saved table has the same users and counts, each date written in `YYYY-MM-DD` form |
| Quota.LoadTable | backend/ronanmain.py:127-136 | a missing file gives the empty table; loading fails exactly when some date text does not parse; otherwise each entry is the parsed date and the stored count, and every date is valid |
| Quota.Entries | backend/ronanmain.py:131-133 | each loaded entry is the parsed date and the stored count, for the same users |
| Quota.SaveThenLoad | backend/ronanmain.py:127-142 | loading a saved table gives back the same users, dates and counts |
| Quota.LoadThenSave | backend/ronanmain.py:127-142 | a loaded file keeps its users and counts; saving it again reproduces it exactly when every date text was zero-padded |
| Quota.ResaveCanonical | backend/ronanmain.py:127-142 | re-saving a loaded file whose dates are all zero-padded reproduces the file |
| Quota.ResaveEntry | backend/ronanmain.py:127-142 | each entry of such a file is saved back as it was |
| Quota.CheckQuotaCases | backend/ronanmain.py:146-167 | whitelisted: allowed, table unchanged; new user or new date: allowed with count 1; same date: count + 1 and allowed below 5, else refused with the table unchanged |
| Quota.CheckQuota | backend/ronanmain.py:146-167 | a user is refused exactly when not whitelisted and already at 5 or more prompts today; a refusal or the whitelisted id leaves the table as it was; an allowed user is recorded for today with a count of at most 5 |
| Quota.OnlyUserChanges | backend/ronanmain.py:146-167 | only the asking user's entry can change or be added |
| Quota.CheckQuotaKeepsRange | backend/ronanmain.py:146-167 | counts from 1 to 5 stay from 1 to 5 |
| Quota.NoneOnDay | backend/ronanmain.py:146-167 | no call by the user on that date means no allowed prompt on it |
| Quota.AtMostFivePerDay | backend/ronanmain.py:146-167 | with a clock that never goes back, a user other than the whitelisted id gets at most 5 allowed prompts per date, counting those already recorded |
| Quota.PromptQuota.constructor | backend/ronanmain.py:144 | the table in memory is the loaded file |
| Quota.PromptQuota.CanUserAsk | backend/ronanmain.py:146-167 | the answer and the new table are those of the quota rule; the file is rewritten with the new table exactly when a user who is not whitelisted is allowed |
| Api.Guard | backend/ronanmain.py:173-189 | 429 iff not allowed; 401 iff allowed and no user; 400 iff also no question; 453 iff also more than 60 words; through iff all pass |
| Api.WordLimitBoundary | backend/ronanmain.py:187-189 | a question of `n` single-spaced words passes the word guard iff `n <= 60`, so exactly 60 words pass |
| Api.BlankQuestionPasses | backend/ronanmain.py:184-189 | a nonempty, all-whitespace question is not refused |
| Api.Ask | backend/ronanmain.py:173-189 | the quota is charged first, then the guards answer in their order |
| Api.EmptyUserIsCharged | backend/ronanmain.py:175-181 | an empty user id is always refused, yet an allowed request still records a prompt for the id "" |
| Api.Label | backend/ronanmain.py:79-81 | a human message becomes `User: ` and its content, an AI message `Assistant: ` and its content |
| Api.Line | backend/ronanmain.py:77-81 | a message adds text iff it is a human or AI message, and that text ends in a newline |
| Api.FormatHistory | backend/ronanmain.py:76-81 | the loop builds exactly the history text of its messages |
| Api.HistoryStep | backend/ronanmain.py:77-81 | one more message appends its line to the history text |
| Api.HistoryAppend | backend/ronanmain.py:76-81 | the history of two runs of messages is the concatenation of their histories |
| Api.HistoryShape | backend/ronanmain.py:76-81 | the history is empty iff no message is human or AI; otherwise it ends in a newline |
| Api.KeptOnly | backend/ronanmain.py:78-81 | only human and AI messages remain |
| Api.Labels | backend/ronanmain.py:79-81 | one `User: ` or `Assistant: ` line per kept message, in order |
| Api.HistoryLines | backend/ronanmain.py:76-81 | with newline-free contents, the history is one line per human or AI message, in order, each ending in a newline; other types leave no trace |
| Api.KeptLine | backend/ronanmain.py:78-81 | a kept first message adds its label as the first line |
| Api.KeptHistory | backend/ronanmain.py:78-81 | a kept first message writes its newline-free label and one newline before the rest of the history |
| Api.KeptLabels | backend/ronanmain.py:78-81 | a kept first message contributes the first label |

## Left out

- PDF reading is not modelled (PyPDF2). Each file's page text is an input, and a read that raises is `None`.
- Directory globbing and folder existence are not modelled. The folder listing is an input map.
- `sent_tokenize` and fastText's `get_sentence_vector` are external. They are function values.
- Cosine similarity is floating point and is not modelled. The scores are an input sequence of reals.
- `np.argsort` is an external sort. Its result is an input constrained to be a sorting permutation.
- File I/O is not modelled:
  - `np.save`/`np.load`;
  - CSV writing and reading;
  - the JSON file of the quota table;
  - the pickle file of the conversation memories.
- The two artifacts are modelled as the in-memory matrix and table. Only the round trip of that split is proved.
- CSV type inference on reload is not modelled.
- The JSON encoding of tuples as lists is not modelled.
- `\w` and `\d` are modelled as ASCII only. Python's Unicode-aware `\w` also accepts letters and digits of other scripts. Whitespace (`\s`, `str.isspace`) is modelled as Python's full set.
- `strftime` on years below 1000 is modelled as padding to four digits, as CPython does on glibc. Some platforms write fewer digits.
- Cosine similarity against an empty matrix raises. This is modelled as the error `EmptyStore` rather than as a particular exception.
- Ties are not broken by ascending row index. The code reverses an ascending unstable argsort, so the order among equal scores is left open. The model proves it is not determined (`Search.TieRanksBothWays`).
- `rag_service.py` imports `EmbeddingSearcher` from a module that does not define it. The model connects it to the searcher of `similarity_search.py`.
- `generate_response` past the history loop is not modelled: the prompt text, the ollama chat call, `ConversationBufferMemory` and its 500 path are external LLM and memory services.
- `llm_service.py`, `speech_service.py`, `translation_service.py`, the FastAPI wiring, the watchdog observer and the frontend are not part of this model.
- `datetime.now().date()` is not read. Today's date is a parameter.
- Quota.CheckQuota: states only an upper bound of 5 on the new count, because a count loaded from the file may be zero or negative and is then incremented.
- Quota.AtMostFivePerDay: assumes a clock that never goes back and a recorded count that is not negative. A stored entry dated after the calls would otherwise reset the count.
- Quota.PromptQuota.constructor: requires a file that loads. A date that `strptime` rejects raises at start-up and the server does not start; `Quota.LoadTable` models that case as `Err(BadDate)`.
