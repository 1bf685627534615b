# boat-cms corpus pipeline, modelled in Dafny

boat-cms is a Streamlit back office for an intent-recognition product. Each
product has features and slots. Intents belong to a product and a feature. The
corpus holds English phrases for an intent. This project models three pages of
it. Each page works on the SQLite connection that the script opens at the start of
every rerun:

- **Corpus generation** (`src/corpus_gen.py`): the examples box is split into
  examples, and the style label gives an English token. One call of the phrase
  generator returns batches of phrases, which are staged as grid rows. The
  reviewer edits and deletes rows, and the import appends them to the `corpus`
  table. The page keeps `generated_corpus` and `import_clicked` across reruns.
- **Corpus page** (`src/corpus.py`): one phrase can be added by hand. A CSV
  upload moves through the states `initial → preview → importing → initial`.
  The import counts successes and errors row by row and continues past
  failures.
- **Intent page** (`src/intent.py`): the feature and slot select boxes, adding
  one intent, and the list filtered by feature and ordered newest first. Delete
  and status update work by Chinese name. The CSV import checks the header,
  resolves each row's feature and slot names within the product, and skips
  rows whose feature is unknown.

The database is the class `Store.Database`. Each table is a sequence of rows in
insertion order, kept next to its state as of the last commit. An `INSERT`
appends one row or raises; whether it raises is an input (`fails`, or
`failing`, a set of row positions). The phrase generator is an input: a
function from the call's arguments to the batches, or `None` when the call
raises. The clock is an input `now`. The Python string operations the pages use
(`split`, `strip`, `strip(chars)`) are written out in `Text`. `Text.Join` is no
page operation: it is the inverse against which `split` is stated.

Modules: `Common` (Option, Result, errors), `Text`, `Store`, `CorpusGen`
(corpus_gen.py), `CorpusUpload` (corpus.py), `IntentAdmin` (intent.py).

## Model

| member | source | states |
|---|---|---|
| Text.Split | src/corpus_gen.py:71 | `s.split(sep)` gives at least one piece, no piece holds the separator, and joining the pieces with it gives back `s` |
| Text.SplitConcat | src/corpus_gen.py:71 | splitting `a + sep + b` gives the pieces of `a`, then those of `b` |
| Text.SplitJoin | src/corpus_gen.py:71 | joining separator-free pieces and splitting again gives back the pieces |
| Text.SplitNoSeparator | src/corpus_gen.py:71 | a string without the separator splits into itself alone |
| Text.SplitHasSecondPiece | src/corpus_gen.py:163 | `split('(')` has an element at index 1 exactly when the string contains `(` |
| Text.Trim | src/corpus_gen.py:163 | `strip(chars)` never lengthens the input, keeps only its characters, leaves no stripped character at either end, and empties an all-stripped input |
| Text.TrimIsSlice | src/corpus_gen.py:163 | what `strip(chars)` keeps is one contiguous slice of the input, with only stripped characters before and after it |
| Text.TrimKeepsTrimmed | src/corpus_gen.py:71 | stripping a string whose ends are not stripped characters changes nothing |
| Text.TrimDropsLast | src/corpus_gen.py:163 | `(w + ")").strip(")")` is `w` when `w` neither begins nor ends with `)` |
| Store.Database.InsertCorpus | src/corpus_gen.py:209 | an insert into `corpus` appends the row, or raises and leaves the table as it was |
| Store.Database.InsertIntent | src/intent.py:180-184 | an insert into `intents` appends the row under the next row id and advances it, or raises and changes nothing |
| Store.Database.Commit | src/corpus_gen.py:210 | after `commit()` the durable tables equal the current ones |
| Store.FindFeature | src/intent.py:159-166 | the lookup finds nothing exactly when no feature of the product has that name; otherwise it returns the id of a feature of the product with that name |
| Store.FindSlot | src/intent.py:171-175 | the same for slots |
| Store.FirstFailure | src/corpus_gen.py:201-210 | the first raising row of a loop of inserts without a catch: none exactly when no row raises, otherwise a raising row with no raising row before it |
| Store.NameIndexKeys | src/intent.py:35 | the keys of `{name: id for rows}` are exactly the names of the kept rows |
| Store.NameIndexLast | src/intent.py:35 | a name carried by several kept rows maps to the id of the last of them |
| CorpusGen.StrippedNonBlank | src/corpus_gen.py:71 | the comprehension yields at most one example per line (the lemmas below state which examples) |
| CorpusGen.SplitExamples | src/corpus_gen.py:71 | every example is non-empty, holds no line break and has no whitespace at either end |
| CorpusGen.SplitExamplesJoin | src/corpus_gen.py:71 | examples typed one per line come back exactly, in order |
| CorpusGen.SplitExamplesConcat | src/corpus_gen.py:71 | line order is kept: the examples of `a + "\n" + b` are those of `a`, then those of `b` |
| CorpusGen.SplitExamplesOfBlank | src/corpus_gen.py:71 | a box holding only whitespace and blank lines gives no examples |
| CorpusGen.StrippedNonBlankConcat | src/corpus_gen.py:71 | the stripped non-blank lines of two line lists are those of the first, then those of the second |
| CorpusGen.StrippedNonBlankKeepsExamples | src/corpus_gen.py:71 | lines that are already examples are kept unchanged, in order |
| CorpusGen.StyleToken | src/corpus_gen.py:163 | `option.split('(')[1].strip(')')` fails with an index error exactly when the option has no `(` |
| CorpusGen.StyleTokenOfLabel | src/corpus_gen.py:163 | the token of a label `name(word)` is `word` |
| CorpusGen.StyleOptionSpelled | src/corpus_gen.py:63 | each of the four options is spelt Chinese name, `(`, English token, `)` |
| CorpusGen.StyleOptionToken | src/corpus_gen.py:63 | the four options yield Normal, Formal, Casual and Colloquial |
| CorpusGen.StyleTokensDistinct | src/corpus_gen.py:63 | the four options yield pairwise different tokens |
| CorpusGen.GeneratorCallFor | src/corpus_gen.py:160-169 | the generator is called with the product name, the intent name, the style token, the examples, `slots=""`, `n` equal to the user's count, the extra text and `runs=1`; a label without `(` fails before the call |
| CorpusGen.StageBatch | src/corpus_gen.py:176-182 | one staged row per phrase of a batch |
| CorpusGen.Staged | src/corpus_gen.py:174-182 | one staged row per phrase over all batches, each with the selected intent id, no slot and score 0.9 |
| CorpusGen.StagedTexts | src/corpus_gen.py:174-182 | the staged texts are the phrases verbatim, in batch order and then phrase order |
| CorpusGen.StagedExample | src/corpus_gen.py:174-182 | batches `a`, `b c`, `d` are staged as `a b c d` |
| CorpusGen.GenerateCorpus | src/corpus_gen.py:143-184 | the nested append loops produce exactly the staged rows of the generator's batches; a bad style label or a raising generator is an error |
| CorpusGen.ApplyEdits | src/corpus_gen.py:98-114 | every edited row takes the grid's text and score. The edits change nothing else: the row count, intent ids and slots stay, and so does every unedited row |
| CorpusGen.DeleteRows | src/corpus_gen.py:122 | deleting never adds rows |
| CorpusGen.DeleteRowsKeeps | src/corpus_gen.py:122 | deleting keeps exactly the rows whose position is not selected, in their original order |
| CorpusGen.DeleteRowsCount | src/corpus_gen.py:122 | one row goes per selected position inside the grid, and no other row goes |
| CorpusGen.DeleteRowsExample | src/corpus_gen.py:122 | deleting positions 0 and 2 of three rows leaves the middle one |
| CorpusGen.Imported | src/corpus_gen.py:201-209 | one corpus row per data row, in order, with the function's intent id (not the grid's 意图ID), the row's slot, text and score, and active |
| CorpusGen.ImportCorpus | src/corpus_gen.py:196-211 | with no raising insert, the imported rows are appended and committed; otherwise the rows before the raising one are appended and nothing is committed |
| CorpusGen.GenSession.constructor | src/corpus_gen.py:74-77 | a session starts with nothing generated and import not clicked |
| CorpusGen.GenSession.Rerun | src/corpus_gen.py:74-141 | one rerun of the page: a failing generation ends the rerun and changes nothing; without staged rows nothing happens; without a click on import the rows are shown. Otherwise the edited grid data, minus the rows deleted in this same rerun, is imported. A successful import clears both flags. A failed import keeps the staged rows and the clicked flag, so the next rerun imports again |
| CorpusUpload.IntentOptionsChoices | src/corpus.py:32-33 | `"全部"` is always offered and means every intent unless an intent of the product has that name; every other name selects the last intent of the product with it |
| CorpusUpload.AddCorpus | src/corpus.py:98-108 | the phrase is inserted and committed exactly when the text is non-empty and a concrete intent (not `None`, not id 0) is selected and the insert does not raise; otherwise the database is unchanged |
| CorpusUpload.FirstMissing | src/corpus.py:147-152 | none exactly when every wanted column is present; otherwise a wanted column that is absent |
| CorpusUpload.MissingColumn | src/corpus.py:147-152 | the same for the five columns the preview reads |
| CorpusUpload.BuildPreview | src/corpus.py:144-154 | as written: one preview row per CSV row, in order, copying the five fields, with status `准备导入` and no intent id; a missing column raises `KeyError` exactly when there is a row to read |
| CorpusUpload.PreviewImportsNothing | src/corpus.py:176-188 | as written, every row counts as an error and nothing is inserted, whichever inserts would raise |
| CorpusUpload.PreviewImportCounterexample | src/corpus.py:176-188 | a one-row CSV imports nothing and counts one error |
| CorpusUpload.ResolvedPreviewOf | src/corpus.py:147-154 | corrected preview row: its intent id is what the page's own intent select-box dict (`intent_options`, lines 30-33) maps its Chinese intent name to, and it is ready exactly when that id exists |
| CorpusUpload.BuildResolvedPreview | src/corpus.py:144-154 | corrected preview: as `BuildPreview`, with each row's intent id resolved within the product |
| CorpusUpload.ImportTally | src/corpus.py:172-188 | successes plus errors equal the number of preview rows, and one record is inserted per success |
| CorpusUpload.ResolvedPreviewImports | src/corpus.py:176-188 | with the corrected preview and no raising insert, the errors are exactly the unresolved rows, and every inserted record is a resolved row's intent id, phrase, score and activity |
| CorpusUpload.OneFailingInsert | src/corpus.py:178-186 | a single raising insert among ready rows costs exactly that row: the loop carries on |
| CorpusUpload.TallyErrors | src/corpus.py:176-188 | when a row is ready exactly when its intent resolves, the errors are the unresolved rows plus the resolved rows whose insert raises |
| CorpusUpload.UploadSession.constructor | src/corpus.py:9-12 | the session starts in `initial` with no preview data |
| CorpusUpload.UploadSession.ConfirmUpload | src/corpus.py:139-160 | only an upload in `initial` builds a preview. Confirm stores it and moves to `preview`. A missing column raises and changes nothing. Preview data is present exactly outside `initial`. The stored rows are the page's own preview rows (ready, no intent id) or, when asked for, the corrected ones |
| CorpusUpload.UploadAsWritten | src/corpus.py:139-196 | the page as written, over three reruns from a fresh session: unless a missing column stops the upload, every row counts as an error, none is imported and the corpus table keeps its rows. The import still commits the tables; a stopped upload commits nothing |
| CorpusUpload.UploadSession.FinalConfirm | src/corpus.py:162-170 | the final confirm moves `preview` to `importing` and does nothing in any other state |
| CorpusUpload.UploadSession.RunImport | src/corpus.py:172-196 | in `importing`, the counters are the tally of the preview rows, their sum is the number of rows, the inserted records are appended and committed, and the session returns to `initial` with no preview data; in any other state nothing happens |
| IntentAdmin.FeatureOptionsChoices | src/intent.py:34-35 | the filter box offers `"所有功能"` (meaning all, unless a feature has that name) and the last feature of the product for every name; the add box offers exactly the product's feature names other than `"所有功能"`, each with an id |
| IntentAdmin.SlotOptionsChoices | src/intent.py:44-45 | the slot box offers the product's slot names and `"无"`, which always means no slot; every other name selects the last slot with it |
| IntentAdmin.AddIntent | src/intent.py:61-72 | refused exactly when a name is empty or the feature is `"所有功能"`. When no feature can be chosen, the lookup raises `KeyError` before any insert. Otherwise one intent is appended and committed with the next id, the product, the chosen feature's and slot's ids, both names, the description, `now` and the checkbox. A raising insert changes nothing |
| IntentAdmin.Selected | src/intent.py:76-91 | the rows the list query selects: exactly the product's intents, of the chosen feature when there is one, each as often as in the table |
| IntentAdmin.InsertNewest | src/intent.py:83 | inserting into a newest-first list keeps it newest first and adds exactly the row |
| IntentAdmin.SortNewest | src/intent.py:83 | `ORDER BY created_at DESC` yields a newest-first permutation of its input |
| IntentAdmin.ListIntents | src/intent.py:76-91 | with `None` every intent of the product, otherwise those with the chosen feature id, each as often as in the table, newest first |
| IntentAdmin.WithoutNamed | src/intent.py:106 | the delete keeps exactly the rows that are not intents of the product with that Chinese name, each as often as before |
| IntentAdmin.WithoutNamedIdempotent | src/intent.py:106 | deleting the same name twice is the same as deleting it once |
| IntentAdmin.WithActive | src/intent.py:120-121 | the update sets `is_active` on the product's intents with that name and leaves every other row as it was |
| IntentAdmin.WithActiveOnlyStatus | src/intent.py:120-121 | the update changes no column but `is_active`; every updated intent has the new status; the other rows stay as they were, in order |
| IntentAdmin.WithoutNamedUnderStatus | src/intent.py:120-121 | deleting a name after updating its status leaves the same table as deleting it straight away |
| IntentAdmin.DeleteIntent | src/intent.py:105-109 | the table becomes the delete's result and is committed |
| IntentAdmin.UpdateIntentStatus | src/intent.py:119-124 | the table becomes the update's result and is committed |
| IntentAdmin.AllIn | src/intent.py:148 | `all(h in columns for h in headers)` holds exactly when every header is a column |
| IntentAdmin.HeadersOk | src/intent.py:148 | a CSV is accepted exactly when all five `CSV_HEADERS` are among its columns; extra columns are allowed |
| IntentAdmin.ResolveSlot | src/intent.py:169-177 | the slot id is `None` exactly when the cell is empty or no slot of the product has that name; otherwise it is the id of a slot of the product with that name |
| IntentAdmin.LookUpSlot | src/intent.py:169-177 | the imperative slot lookup computes `ResolveSlot` |
| IntentAdmin.RowImport | src/intent.py:159-184 | each row adds at most one intent |
| IntentAdmin.ImportedIntents | src/intent.py:157-184 | the first `n` rows add at most `n` intents |
| IntentAdmin.ImportIsFilterThenInsert | src/intent.py:157-184 | the import loop adds exactly the intents of the rows whose feature resolves, in CSV order, with consecutive ids; a skipped row drops nothing else and reorders nothing |
| IntentAdmin.ImportedActivity | src/intent.py:184 | `row.get('is_active', True)`: with no `is_active` column every imported intent is active; with one, each imported intent has the activity of a CSV row with its Chinese name |
| IntentAdmin.UnknownFeaturesImportNothing | src/intent.py:159-166 | a CSV none of whose feature names belongs to the product imports nothing |
| IntentAdmin.ImportRow | src/intent.py:159-184 | a row with an unknown feature is skipped with no change. Otherwise its intent is inserted with the product, the resolved feature and slot ids, its names and description, `now` and its activity. Only that insert can raise, and a raise changes nothing |
| IntentAdmin.ImportRows | src/intent.py:157-185 | the rows are processed in CSV order, stopping at the first raising insert, and the intents of the rows before the stop are appended. The id counter advances by the number of intents appended |
| IntentAdmin.ImportIntentCsv | src/intent.py:144-188 | a CSV missing a required column is refused and nothing changes. An accepted import stops exactly when the insert of some row whose feature resolves raises. It stops at the first such row and leaves the earlier inserts uncommitted. Otherwise every resolvable row's intent is appended and one commit follows. In both cases the id counter advances by the number of intents appended |

## Left out

- The selection widgets of the generation page (product, feature and intent at `src/corpus_gen.py:10-30`) and the descriptions fetched at lines 34-47: the chosen intent id, product name, intent name and extra text are inputs of the model.
- `src/igen.py` (prompt rendering and the OpenAI call): the generator is an abstract function from its arguments to batches of phrases, or a failure.
- AgGrid: the reviewer's edits are an arbitrary map from row position to new text and score, and the selection is an arbitrary set of positions.
- Streamlit rendering, `st.write`/`print` output, success and error messages, `st.rerun()`: a rerun is one call of a session method, and messages are outcome values.
- CSV parsing (`pd.read_csv`, column types, `chardet`): an uploaded CSV is its column list and typed rows. An empty `slot_name` cell is `None`. A NaN `feature_name` is not modelled, because it matches no feature and the row would be skipped anyway.
- The corpus list query with its joins (`src/corpus.py:39-90`) and the intent list's joins, date formatting and yes/no mapping (`src/intent.py:92-98`): display only. The intent list is modelled by the rows it selects and their order.
- The template and download buttons (`src/corpus.py:113-134`, `src/intent.py:131-139`, `src/intent.py:190-206`).
- The outer exception handler of the corpus import (`src/corpus.py:192-193`): `commit()` is modelled as never raising.
- `corpus_id` and SQLite's rowid reuse: `intent_id` is a counter in `Database` that each successful insert advances.
- `datetime.now()`: one `now` per operation. `created_at` is an integer timestamp, although the form stores a formatted string and the CSV import a datetime.
- IntentAdmin.ImportIntentCsv: every row gets the same `now`, whereas the source reads the clock once per inserted row.
- IntentAdmin.ListIntents: the order of intents with equal `created_at` is left open, as SQLite leaves it; the contract states newest first and a permutation, not a particular order among ties.
- CorpusUpload.AddCorpus: the score is any real; the widget's range of 0 to 1 is not modelled, because the page only copies it.
- Foreign keys, joins and transaction durability beyond "committed rows equal current rows after `commit()`".
- Store.Database: one database object lives across reruns, while the script opens a new connection each rerun (`src/app.py:52`). Rows inserted but not committed before an import stops (`IntentAdmin.ImportIntentCsv` after a raising insert, `CorpusGen.GenSession.Rerun` after a failed import) are therefore still in `intents` or `corpus` in the model and become durable with a later commit, whereas the program loses them when the rerun's connection is dropped.
- CorpusUpload.UploadSession.constructor: the session-state defaults at `src/corpus.py:9-12` are module-level code, which Python runs once per server process on the first import. The model assumes the session that imported the module: in any later browser session `upload_state` is never set, and the read at `src/corpus.py:162` raises `AttributeError`.
- `src/feature.py` and `src/slot.py`, `src/app.py`, `src/gen.py`, `src/main.py`, `src/tigaplayground.py` and the top-level `app.py` and `igen.py` are not part of this model.

## Findings

| source | as written | input that shows it | evidently intended | confidence | as-written member | corrected member |
|---|---|---|---|---|---|---|
| src/corpus.py:147-154 | the preview dicts have no `'intent_id'` key, but the import reads `row['intent_id']` at line 182 inside the per-row try, so every ready row raises `KeyError` and counts as an error | any CSV with one well-formed row: preview, confirm, final confirm; the import reports 0 imported and 1 failed | each preview row carries the id of the product's intent named in its `intent_ch` column, and a row whose intent does not exist is not ready | not executed | CorpusUpload.PreviewImportCounterexample | CorpusUpload.ResolvedPreviewImports |

`CorpusUpload.UploadSession.ConfirmUpload` builds either preview. `CorpusUpload.UploadAsWritten` runs the page as written from upload to import.
