# Incremental source sync of ai-chatbot-js

This is a Dafny model of the document pipeline of the ai-chatbot-js
retrieval chatbot. The pipeline keeps a vector index (Chroma) of Markdown
chunks of web pages, and a SQLite table of the pages behind it. The model
covers three pieces:

- **`split_text`** (`index.dfy`). It splits each page at its Markdown
  headings and tags every chunk with the page's `source`. It then drops
  any chunk whose SHA-256 hash was already seen in the same call.
- **`SQLiteDocStore`** (`docstore.dfy`). The `docs` table is a map from
  row id to `(text, metadata, hash, parsed)`. The class keeps one
  invariant: every row's `hash` is the MD5 of its `text`.
- **`asyncLoader`** (`source_sync.dfy`). It builds `hash_map` from the
  parsed records and picks the fetched pages whose source is unknown or
  whose MD5 changed. If it picks none, it exits. Otherwise it deletes
  those sources' vectors, adds the new chunks, and rewrites the records,
  in that order.

The vector index (`chroma.dfy`) is modelled only by the contract of
`delete_by_sources` and `add_documents`, as an ordered list of chunks.
`wrappers.dfy` holds `Option`, `Result` and the exceptions the code can raise
(`KeyError`, SQLite's `IntegrityError`). `seqs.dfy` holds an
order-preserving filter and the subsequence relation.

The imperative parts follow the code's own form:

- `SplitText`, `BuildHashMap`, `SelectForUpdate`, `FetchAll` and
  `UpdateSelectedRecords` are methods with loops. `AsyncLoader` and
  `ReplaceStale` are methods that issue the side effects.
- All of them except `FetchAll` are proved equal to a specification
  function (`SplitAndDedup`, `HashMapOf`, `Docs2Update`, `UpdateRecords`,
  `Replace`, `Sync`).
- `FetchAll` has no such function, because SQLite fixes no row order. Its
  result is specified as a set: each selected row appears exactly once,
  and nothing else appears.
- The properties of the code are proved as lemmas about those functions.

The store and the index are classes with `modifies` clauses.
`AsyncLoader` returns a trace of its side effects, so that their order can
be stated.

Parameters stand in for code outside the model:

- the hash functions `md5` and `sha256`;
- the heading splitter `splitter`;
- the page fetch with its HTML transforms `load`;
- the id generator `newId`.

None of these is assumed to be injective.

## Model

| member | source | states |
|---|---|---|
| Seqs.Filter | utils/index.py:34 | the filter never grows its input, and keeps exactly the elements that satisfy the predicate |
| Seqs.FilterIsSubsequence | scripts/source_sync.py:67-82 | a filtered list is an order-preserving subsequence of its input |
| Seqs.FilterCounts | scripts/source_sync.py:67-82 | each kept element appears as often as in the input; dropped elements appear zero times |
| Index.UserConversation | utils/index.py:34 | the conversation is never longer than the history, and holds exactly the history's Human and AI messages |
| Index.UserConversationIsDialogue | utils/index.py:34 | `get_user_conversation` keeps exactly the Human and AI messages, with their multiplicities, in their original order |
| Index.PrependedContent | utils/index.py:96 | the new content is the prefix, then `"\n\n"`, then the original, which can be read back from the result |
| Index.RenamedPath | utils/index.py:102 | the rename never lengthens a path |
| Index.RenamedPathKeepsPlainPath | utils/index.py:102 | a path without `-headless.md` keeps its name |
| Index.RenamedPathDropsHeadless | utils/index.py:102 | `<stem>-headless.md` becomes `<stem>.md` when the stem has no marker |
| Index.ChunkDocuments | utils/index.py:221-226 | the split raises `KeyError('source')` exactly when some page without `source` yields a chunk |
| Index.ChunksInheritSource | utils/index.py:222-226 | every chunk is a splitter chunk of one of the pages, carrying that page's `source` |
| Index.DedupProperties | utils/index.py:230-241 | the output has no two chunks with equal hash; it is a subsequence of the chunk list; it has every input hash; its length equals the number of distinct hashes and is at most the input length; deduplicating it again changes nothing |
| Index.FirstOccurrenceWins | utils/index.py:234-238 | a chunk is kept exactly when no earlier chunk has its hash |
| Index.DedupIsFirstOccurrences | utils/index.py:233-238 | the loop agrees with an independent definition: the first chunk of each hash, taken from the back |
| Index.DedupFromDistinct | utils/index.py:233-238 | a list whose hashes are all distinct and unseen passes through unchanged |
| Index.SplitAndDedup | utils/index.py:206-241 | the split raises exactly when some page without `source` yields a chunk, and the error is then `KeyError('source')`; on success no two returned chunks share a hash |
| Index.SplitText | utils/index.py:206-241 | `split_text` returns `SplitAndDedup` of its input, which includes the `KeyError` case; the seen-set is local to the call |
| DocStore.UpdateDocumentIn | utils/docstore.py:44-52 | an existing row gets the new text and metadata, their MD5 and `parsed = 1`; an absent id changes nothing; other rows are untouched; the MD5 invariant is kept |
| DocStore.MarkParsedIn | utils/docstore.py:82-84 | every listed row that exists is flagged parsed; text, metadata and hash never change; unlisted rows are untouched; the MD5 invariant is kept |
| DocStore.SQLiteDocStore.constructor | utils/docstore.py:26-29 | opening keeps the committed table and its MD5 invariant |
| DocStore.SQLiteDocStore.UpdateDocument | utils/docstore.py:31-52 | the new table is `UpdateDocumentIn` of the old one, and the invariant is kept |
| DocStore.SQLiteDocStore.Add | utils/docstore.py:54-71 | a fresh id gets an unparsed row with the text, metadata and its MD5, and nothing else changes; an existing id raises `IntegrityError` and changes nothing |
| DocStore.SQLiteDocStore.UpdateParsedStatus | utils/docstore.py:73-84 | the new table is `MarkParsedIn` of the old one, and the invariant is kept |
| DocStore.SQLiteDocStore.Search | utils/docstore.py:86-101 | returns the stored text and metadata for a present id, and `KeyError` for an absent one |
| DocStore.SQLiteDocStore.FetchAll | utils/docstore.py:112-117 | the cursor loop returns one distinct entry per selected row |
| DocStore.SQLiteDocStore.List | utils/docstore.py:103-119 | returns exactly the unparsed rows, each once, with `id` added to the metadata |
| DocStore.SQLiteDocStore.ParsedList | utils/docstore.py:121-138 | returns one parsed row, with `id` and `hash` added, when there is any parsed row, and nothing otherwise |
| DocStore.SQLiteDocStore.Truncate | utils/docstore.py:140-148 | the table is empty afterwards |
| DocStore.SQLiteDocStore.Delete | utils/docstore.py:150-160 | exactly the row with that id is removed, and the invariant is kept |
| Chroma.DeleteBySourcesContract | utils/chroma.py:4-12 | deletion keeps, in order, exactly the entries whose `source` is not listed, and leaves none of the listed sources |
| Chroma.VectorIndex.constructor | scripts/source_sync.py:24-27 | the index opens on its persisted entries |
| Chroma.VectorIndex.DeleteBySources | utils/chroma.py:4-12 | the entries become those that survive the delete filter |
| Chroma.VectorIndex.AddDocuments | scripts/source_sync.py:96 | the new chunks are appended after the existing entries |
| SourceSync.HashMapLastWins | scripts/source_sync.py:41-43 | the keys of `hash_map` are exactly the parsed sources, and each maps to the metadata of the last record with that source |
| SourceSync.BuildHashMap | scripts/source_sync.py:41-43 | the loop builds `HashMapOf` the parsed records |
| SourceSync.Docs2Update | scripts/source_sync.py:67-82 | the selection is never longer than the fetched pages, and holds exactly the fetched pages that need an update |
| SourceSync.Docs2UpdateClassifies | scripts/source_sync.py:67-82 | a page is selected exactly when its source is not a key or its MD5 differs from the stored `hash`; the selection preserves order and multiplicity |
| SourceSync.IdenticalContentUnchanged | scripts/source_sync.py:66-82 | with the store's MD5 invariant, a fetched page whose text equals the stored text of the parsed row of its source is not selected |
| SourceSync.SelectForUpdate | scripts/source_sync.py:67-82 | the comparison loop computes `Docs2Update` |
| SourceSync.UpdateRecords | scripts/source_sync.py:100-102 | the record loop issues at most one update per page and keeps the set of ids |
| SourceSync.UpdateRecordsEffects | scripts/source_sync.py:100-102 | one update per page, in order, targeting `hash_map[source].get('id')`, until the first unknown source, which raises `KeyError` |
| SourceSync.UpdateRecordsUntouched | scripts/source_sync.py:100-102 | a row that no issued update targets is unchanged |
| SourceSync.UpdateRecordsLastWrite | scripts/source_sync.py:100-102 | a targeted row holds the text, metadata, MD5 and `parsed = 1` of the last page whose update targets it |
| SourceSync.UpdateRecordsRow | scripts/source_sync.py:100-102 | both of the above for one row, as `LastWriterWins` |
| SourceSync.UpdateRecordsKeepHashes | scripts/source_sync.py:100-102 | the record loop keeps the MD5 invariant |
| SourceSync.UpdateSelectedRecords | scripts/source_sync.py:100-102 | the loop over the store computes `UpdateRecords`, including where it stops with a `KeyError` |
| SourceSync.Replace | scripts/source_sync.py:90-102 | a run past the early exit never reports `NothingToParse`, and its first effect deletes the vectors of the selected sources |
| SourceSync.Sync | scripts/source_sync.py:67-86 | the run reports `NothingToParse` exactly when the selection is empty |
| SourceSync.SyncExitsEarly | scripts/source_sync.py:84-86 | the run exits early exactly when no page needs an update, and then touches neither the index nor the store |
| SourceSync.SyncOrdersEffects | scripts/source_sync.py:90-102 | the first effect deletes the selected sources' vectors, the second adds the new chunks, and all later effects are record updates; a failed split stops after the delete |
| SourceSync.VectorsFromSelectedSources | scripts/source_sync.py:91-96 | every new chunk carries one of the selected sources |
| SourceSync.ReplaceEntries | scripts/source_sync.py:91-96 | deleting by sources and then adding chunks of those sources leaves exactly those chunks for them, and the rest unchanged |
| SourceSync.SyncReplacesVectors | scripts/source_sync.py:91-96 | after the run, the entries of the selected sources are exactly `split_text(docs2update)`; no old entry of those sources remains; other entries are as before |
| SourceSync.SyncUpdatesRecords | scripts/source_sync.py:99-102 | a run that gets past the split keeps the MD5 invariant and the set of ids, and ends normally exactly when every selected source is a key of `hash_map` |
| SourceSync.SyncRecordsLastWriter | scripts/source_sync.py:99-102 | after a run that ends normally, each row holds what the last selected page targeting it wrote (new text, metadata, MD5, `parsed = 1`), or is unchanged when none targets it |
| SourceSync.SecondRunNothingToParse | scripts/source_sync.py:40-102 | with one parsed row and one page of its source whose split does not raise, the first run does not raise, and a second run on the re-read row asks for the same URL and, given the same page, exits with `NothingToParse` and changes nothing |
| SourceSync.LoadedSourcesNeverRaise | scripts/source_sync.py:47-101 | when every fetched page carries a parsed source and the split succeeds, the run does not raise |
| SourceSync.ReplaceStale | scripts/source_sync.py:90-102 | the delete, add and record-update steps give the outcome, table, index and trace of `Replace` on the old state |
| SourceSync.AsyncLoader | scripts/source_sync.py:30-104 | the method's outcome, final table, index contents and trace are those of `Sync` on the old state and on what `parsedList` returned; the MD5 invariant is kept |

## Left out

- Page fetching and the HTML transforms (`AsyncHtmlLoader`, the
  BeautifulSoup tag and class deny-lists, blank-line removal, Markdownify)
  are network I/O and library code. They are the parameter `load`.
- `MarkdownHeaderTextSplitter`'s internals are library code. The splitter
  is a parameter from text to chunks.
- The MD5 and SHA-256 algorithms are library code. They are
  parameters, with no injectivity assumed.
- SQLite, JSON and `uuid4` are in-memory maps here. A JSON round trip is
  taken to give back the same string map. The generated id is the
  parameter `newId`.
- Commits and durability are not modelled: each mutation is atomic on the map.
- SQLite may return `list` and `parsedList` rows in any order, so the
  model leaves their order unspecified.
- `sys.exit()` is the outcome `NothingToParse`. The prints are logging
  only and are not modelled.
- In `split_text`, the code writes `source` into each chunk's metadata in
  place. The model builds the tagged chunk as a new value, so possible
  aliasing of chunks between pages is not modelled.
- `AsyncLoader`: an exception is stopped and returned as the outcome.
  Effects it did before raising stay visible, as they are in the store
  and the index.
- `ParsedList`: follows the code's `limit 1`, which returns at most one
  parsed row, although its doc comment says it lists all parsed documents.
  The sync therefore compares fetched pages with at most one record.
- A `None` among the page sources matches no entry in the model, and
  neither does an entry without a `source` key. How Chroma treats a null
  inside `$in` is not modelled.
- Idempotence of two runs is proved only by `SecondRunNothingToParse`,
  for one parsed row and one unchanged page. In the code itself, the
  general case fails because `parsedList` uses `limit 1` without
  `ORDER BY`, so the second run may compare against a different parsed
  row. The model's `load` is more general than the code's loader, which
  yields one page per URL. Because `load` may return several pages for
  one source, the model has a second obstacle that the code does not. The
  last such page wins the record, and the earlier ones mismatch its MD5
  on the next run.
- Failures of Chroma or SQLite partway through a run are not modelled,
  for example a delete or add that raises, or a failed commit. The
  mutators here are total. Only the split's and the record loop's
  `KeyError` leave a partly applied run.
- DocStore.SQLiteDocStore.constructor: it requires the MD5 invariant of
  the persisted table. This holds only if that table was written through
  the modelled methods alone.
- `store_dialogs`, `get_finished_headless_dialogs`, `walk_through_files`,
  `load_documents`, the file I/O of `prepend_to_file` and the
  pretty-printers depend on the filesystem, the clock or the console.
- `main.py`, `scripts/health_check.py`, `utils/slack_notificator.py`,
  `scripts/terminal.py` and `providers/providers.py` are HTTP, networking,
  an interactive loop and LLM wrappers, and are not part of this model.
