/** scripts/source_sync.py: `asyncLoader`, the incremental sync run. It
    compares freshly fetched and normalised pages with the MD5 recorded for
    their source, and for the pages that changed replaces their vectors and
    rewrites their records, in the order delete, add, record update. */
module SourceSync {
  import opened Wrappers
  import opened Seqs
  import opened Index
  import opened DocStore
  import opened Chroma

  /** `doc.metadata.get('source')`. */
  function SourceOf(d: Document): Option<string>
  {
    Get(d.metadata, "source")
  }

  /** `[doc.metadata.get('source') for doc in docs]`. */
  function PageSources(docs: seq<Document>): seq<Option<string>>
  {
    seq(|docs|, i requires 0 <= i < |docs| => SourceOf(docs[i]))
  }

  /** `hash_map`: source to the metadata of a parsed record. */
  type HashMap = map<Option<string>, Metadata>

  /** The dictionary the first loop of `asyncLoader` builds; a later record
      with the same source overwrites an earlier one. */
  function HashMapOf(parsed: seq<Document>): HashMap
  {
    if parsed == [] then map[]
    else
      var last := parsed[|parsed| - 1];
      HashMapOf(parsed[..|parsed| - 1])[SourceOf(last) := last.metadata]
  }

  /** The keys of `hash_map` are exactly the sources of the parsed records,
      and each maps to the metadata of the last record with that source. */
  lemma HashMapLastWins(parsed: seq<Document>)
    ensures forall k :: k in HashMapOf(parsed) <==> exists i :: 0 <= i < |parsed| && SourceOf(parsed[i]) == k
    ensures forall k :: k in HashMapOf(parsed) ==>
              exists i :: LastWithSource(parsed, k, i) && HashMapOf(parsed)[k] == parsed[i].metadata
  {
    HashMapKeys(parsed);
    HashMapValues(parsed);
  }

  lemma {:induction false} HashMapKeys(parsed: seq<Document>)
    ensures forall k :: k in HashMapOf(parsed) <==> exists i :: 0 <= i < |parsed| && SourceOf(parsed[i]) == k
  {
    if parsed != [] {
      var n := |parsed| - 1;
      var init := parsed[..n];
      HashMapKeys(init);
      forall k ensures k in HashMapOf(parsed) <==> exists i :: 0 <= i < |parsed| && SourceOf(parsed[i]) == k {
        if k in HashMapOf(init) {
          var i :| 0 <= i < n && SourceOf(init[i]) == k;
          assert SourceOf(parsed[i]) == k;
        }
        if exists i :: 0 <= i < |parsed| && SourceOf(parsed[i]) == k {
          var i :| 0 <= i < |parsed| && SourceOf(parsed[i]) == k;
          if i < n {
            assert SourceOf(init[i]) == k;
          }
        }
      }
    }
  }

  /** `i` is the last position of `parsed` with source `k`. */
  predicate LastWithSource(parsed: seq<Document>, k: Option<string>, i: int)
  {
    0 <= i < |parsed| && SourceOf(parsed[i]) == k && forall j :: i < j < |parsed| ==> SourceOf(parsed[j]) != k
  }

  lemma {:induction false} HashMapValues(parsed: seq<Document>)
    ensures forall k :: k in HashMapOf(parsed) ==>
              exists i :: LastWithSource(parsed, k, i) && HashMapOf(parsed)[k] == parsed[i].metadata
  {
    if parsed != [] {
      var n := |parsed| - 1;
      var init := parsed[..n];
      HashMapValues(init);
      forall k | k in HashMapOf(parsed)
        ensures exists i :: LastWithSource(parsed, k, i) && HashMapOf(parsed)[k] == parsed[i].metadata
      {
        if k == SourceOf(parsed[n]) {
          assert LastWithSource(parsed, k, n);
        } else {
          var i :| LastWithSource(init, k, i) && HashMapOf(init)[k] == init[i].metadata;
          forall j | i < j < |parsed| ensures SourceOf(parsed[j]) != k {
            if j < n {
              assert parsed[j] == init[j];
            }
          }
          assert parsed[i] == init[i];
          assert LastWithSource(parsed, k, i);
        }
      }
    }
  }

  /** The `hash_map` loop. */
  method BuildHashMap(parsedDocs: seq<Document>) returns (hashMap: HashMap)
    ensures hashMap == HashMapOf(parsedDocs)
  {
    hashMap := map[];
    var i := 0;
    while i < |parsedDocs|
      invariant 0 <= i <= |parsedDocs|
      invariant hashMap == HashMapOf(parsedDocs[..i])
    {
      var doc := parsedDocs[i];
      hashMap := hashMap[SourceOf(doc) := doc.metadata];
      assert parsedDocs[..i + 1][..i] == parsedDocs[..i];
      i := i + 1;
    }
    assert parsedDocs[..|parsedDocs|] == parsedDocs;
  }

  /** A fetched document needs an update when its source has no parsed
      record, or its MD5 differs from the recorded `hash` (a record without
      a `hash` key never matches). */
  predicate NeedsUpdate(hashMap: HashMap, md5: string -> string, d: Document)
  {
    SourceOf(d) !in hashMap || Some(md5(d.content)) != Get(hashMap[SourceOf(d)], "hash")
  }

  function Stale(hashMap: HashMap, md5: string -> string): Document -> bool
  {
    d => NeedsUpdate(hashMap, md5, d)
  }

  /** `docs2update`. */
  function Docs2Update(hashMap: HashMap, md5: string -> string, docs: seq<Document>): (r: seq<Document>)
    ensures |r| <= |docs|
    ensures forall d :: d in r <==> d in docs && NeedsUpdate(hashMap, md5, d)
  {
    Filter(Stale(hashMap, md5), docs)
  }

  /** A transformed document is selected iff its source is unknown or its
      MD5 changed; selected documents keep their relative order, and each
      selected document is selected as often as it was fetched. */
  lemma Docs2UpdateClassifies(hashMap: HashMap, md5: string -> string, docs: seq<Document>)
    ensures forall d :: d in Docs2Update(hashMap, md5, docs) <==>
              d in docs && (SourceOf(d) !in hashMap || Some(md5(d.content)) != Get(hashMap[SourceOf(d)], "hash"))
    ensures forall d :: multiset(Docs2Update(hashMap, md5, docs))[d] ==
              if NeedsUpdate(hashMap, md5, d) then multiset(docs)[d] else 0
    ensures IsSubsequence(Docs2Update(hashMap, md5, docs), docs)
  {
    FilterCounts(Stale(hashMap, md5), docs);
    FilterIsSubsequence(Stale(hashMap, md5), docs);
  }

  /** Change detection does not flag unchanged content: a fetched page whose
      text equals the stored text of the parsed row of its source is not
      selected, because the MD5 invariant of the store makes the listed
      `hash` the MD5 of that text. */
  lemma IdenticalContentUnchanged(md5: string -> string, table: Table, parsed: seq<Document>, d: Document)
    requires HashesMatch(md5, table)
    requires IsParsedListing(table, parsed)
    requires parsed != [] && SourceOf(d) == SourceOf(parsed[0])
    requires exists id :: id in table && parsed[0] == ParsedEntry(id, table[id]) && table[id].text == d.content
    ensures !NeedsUpdate(HashMapOf(parsed), md5, d)
  {
    var id :| id in table && parsed[0] == ParsedEntry(id, table[id]) && table[id].text == d.content;
    assert |parsed| == 1;
    assert parsed == [parsed[0]];
    SingleHashMap(parsed[0]);
    assert Get(parsed[0].metadata, "hash") == Some(table[id].hash) == Some(md5(d.content));
  }

  /** The comparison loop of `asyncLoader`. */
  method SelectForUpdate(hashMap: HashMap, md5: string -> string, docsTransformed: seq<Document>)
    returns (docs2update: seq<Document>)
    ensures docs2update == Docs2Update(hashMap, md5, docsTransformed)
  {
    docs2update := [];
    var i := 0;
    while i < |docsTransformed|
      invariant 0 <= i <= |docsTransformed|
      invariant docs2update == Docs2Update(hashMap, md5, docsTransformed[..i])
    {
      var doc := docsTransformed[i];
      var md5Hash := md5(doc.content);
      assert docsTransformed[..i + 1][..i] == docsTransformed[..i];
      i := i + 1;
      if SourceOf(doc) !in hashMap {
        docs2update := docs2update + [doc];
        continue;
      }
      if Some(md5Hash) != Get(hashMap[SourceOf(doc)], "hash") {
        docs2update := docs2update + [doc];
        continue;
      }
    }
    assert docsTransformed[..|docsTransformed|] == docsTransformed;
  }

  /** A side effect on the index or the store, in the order of the run. */
  datatype Effect =
    | DeleteVectors(sources: seq<Option<string>>)
    | AddVectors(chunks: seq<Document>)
    | UpdateRecord(id: Option<string>, doc: Document)

  /** The id `hash_map[source].get('id')` that the record update of `d`
      targets, when its source is a key. */
  function TargetOf(hashMap: HashMap, d: Document): Option<string>
  {
    if SourceOf(d) in hashMap then Get(hashMap[SourceOf(d)], "id") else None
  }

  /** `update_document(id, doc)` where `id` is `metadata.get('id')`: with
      `None` the `WHERE id=?` matches no row. */
  function UpdateTarget(md5: string -> string, table: Table, id: Option<string>, doc: Document): Table
  {
    if id.Some? then UpdateDocumentIn(md5, table, id.value, doc) else table
  }

  /** The table after the record-update loop, the exception that stopped it
      if any, and the updates it issued. */
  datatype RecordsRun = RecordsRun(table: Table, error: Option<Exception>, effects: seq<Effect>)

  /** The last loop of `asyncLoader`: `hash_map[source]` raises `KeyError`
      for an unknown source and stops the loop; `update_document(None, doc)`
      matches no row. */
  function UpdateRecords(md5: string -> string, table: Table, hashMap: HashMap, todo: seq<Document>): (r: RecordsRun)
    ensures |r.effects| <= |todo|
    ensures r.table.Keys == table.Keys
    decreases |todo|
  {
    if todo == [] then RecordsRun(table, None, [])
    else
      var doc := todo[0];
      if SourceOf(doc) !in hashMap then RecordsRun(table, Some(KeyError(SourceOf(doc))), [])
      else
        var id := Get(hashMap[SourceOf(doc)], "id");
        var next := UpdateTarget(md5, table, id, doc);
        var rest := UpdateRecords(md5, next, hashMap, todo[1..]);
        RecordsRun(rest.table, rest.error, [UpdateRecord(id, doc)] + rest.effects)
  }

  /** The loop issues one update per document, in order, until the first
      document whose source is not a key of `hash_map`, where it raises. */
  lemma {:induction false} UpdateRecordsEffects(md5: string -> string, table: Table, hashMap: HashMap, todo: seq<Document>)
    ensures var r := UpdateRecords(md5, table, hashMap, todo);
            && |r.effects| <= |todo|
            && (forall i :: 0 <= i < |r.effects| ==>
                  SourceOf(todo[i]) in hashMap && r.effects[i] == UpdateRecord(TargetOf(hashMap, todo[i]), todo[i]))
            && (r.error.None? <==> |r.effects| == |todo|)
            && (r.error.Some? ==> SourceOf(todo[|r.effects|]) !in hashMap &&
                                  r.error == Some(KeyError(SourceOf(todo[|r.effects|]))))
    decreases |todo|
  {
    if todo != [] && SourceOf(todo[0]) in hashMap {
      var id := Get(hashMap[SourceOf(todo[0])], "id");
      var next := UpdateTarget(md5, table, id, todo[0]);
      UpdateRecordsEffects(md5, next, hashMap, todo[1..]);
    }
  }

  /** The row `id`, `before` the first `n` updates of `todo` and `after`
      them: unchanged when none of them targets it, and otherwise as the
      last one targeting it wrote it (that document's text and metadata, the
      MD5 of the text, `parsed = 1`). */
  ghost predicate LastWriterWins(md5: string -> string, hashMap: HashMap, todo: seq<Document>, n: nat,
                                 id: string, before: Record, after: Record)
    requires n <= |todo|
  {
    && ((forall j :: 0 <= j < n ==> TargetOf(hashMap, todo[j]) != Some(id)) ==> after == before)
    && forall i :: 0 <= i < n && TargetOf(hashMap, todo[i]) == Some(id) &&
                   (forall k :: i < k < n ==> TargetOf(hashMap, todo[k]) != Some(id)) ==>
                     after == Record(todo[i].content, todo[i].metadata, md5(todo[i].content), true)
  }

  /** What the record loop does to one row. */
  lemma UpdateRecordsRow(md5: string -> string, table: Table, hashMap: HashMap, todo: seq<Document>, id: string)
    requires id in table
    ensures var r := UpdateRecords(md5, table, hashMap, todo);
            LastWriterWins(md5, hashMap, todo, |r.effects|, id, table[id], r.table[id])
  {
    UpdateRecordsUntouched(md5, table, hashMap, todo, id);
    UpdateRecordsLastWrite(md5, table, hashMap, todo, id);
  }

  /** A row that none of the issued updates targets is unchanged. */
  lemma {:induction false} UpdateRecordsUntouched(md5: string -> string, table: Table, hashMap: HashMap, todo: seq<Document>, id: string)
    requires id in table
    ensures var r := UpdateRecords(md5, table, hashMap, todo);
            (forall j :: 0 <= j < |r.effects| ==> TargetOf(hashMap, todo[j]) != Some(id)) ==> r.table[id] == table[id]
    decreases |todo|
  {
    if todo != [] && SourceOf(todo[0]) in hashMap {
      var id0 := Get(hashMap[SourceOf(todo[0])], "id");
      var next := UpdateTarget(md5, table, id0, todo[0]);
      var tail := todo[1..];
      UpdateRecordsUntouched(md5, next, hashMap, tail, id);
      var r := UpdateRecords(md5, table, hashMap, todo);
      var rest := UpdateRecords(md5, next, hashMap, tail);
      if forall j :: 0 <= j < |r.effects| ==> TargetOf(hashMap, todo[j]) != Some(id) {
        assert TargetOf(hashMap, todo[0]) != Some(id);
        forall j | 0 <= j < |rest.effects| ensures TargetOf(hashMap, tail[j]) != Some(id) {
          assert tail[j] == todo[j + 1];
        }
      }
    }
  }

  /** A row is left as the last issued update for it wrote it: that
      document's text and metadata, the MD5 of the text, `parsed = 1`. */
  lemma UpdateRecordsLastWrite(md5: string -> string, table: Table, hashMap: HashMap, todo: seq<Document>, id: string)
    requires id in table
    ensures var r := UpdateRecords(md5, table, hashMap, todo);
            forall i :: 0 <= i < |r.effects| && TargetOf(hashMap, todo[i]) == Some(id) &&
                        (forall k :: i < k < |r.effects| ==> TargetOf(hashMap, todo[k]) != Some(id)) ==>
                          r.table[id] == Record(todo[i].content, todo[i].metadata, md5(todo[i].content), true)
  {
    var r := UpdateRecords(md5, table, hashMap, todo);
    forall i | 0 <= i < |r.effects| && TargetOf(hashMap, todo[i]) == Some(id) &&
               (forall k :: i < k < |r.effects| ==> TargetOf(hashMap, todo[k]) != Some(id))
      ensures r.table[id] == Record(todo[i].content, todo[i].metadata, md5(todo[i].content), true)
    {
      UpdateRecordsLastWriteAt(md5, table, hashMap, todo, id, i);
    }
  }

  /** The same, for the update at position `i`. */
  lemma {:induction false} UpdateRecordsLastWriteAt(md5: string -> string, table: Table, hashMap: HashMap, todo: seq<Document>,
                                                    id: string, i: nat)
    requires id in table
    requires i < |UpdateRecords(md5, table, hashMap, todo).effects|
    requires TargetOf(hashMap, todo[i]) == Some(id)
    requires forall k :: i < k < |UpdateRecords(md5, table, hashMap, todo).effects| ==> TargetOf(hashMap, todo[k]) != Some(id)
    ensures UpdateRecords(md5, table, hashMap, todo).table[id] ==
            Record(todo[i].content, todo[i].metadata, md5(todo[i].content), true)
    decreases |todo|
  {
    var id0 := TargetOf(hashMap, todo[0]);
    var next := UpdateTarget(md5, table, id0, todo[0]);
    var tail := todo[1..];
    var rest := UpdateRecords(md5, next, hashMap, tail);
    assert UpdateRecords(md5, table, hashMap, todo).table == rest.table;
    assert |UpdateRecords(md5, table, hashMap, todo).effects| == 1 + |rest.effects|;
    if i == 0 {
      forall j | 0 <= j < |rest.effects| ensures TargetOf(hashMap, tail[j]) != Some(id) {
        assert tail[j] == todo[j + 1];
      }
      UpdateRecordsUntouched(md5, next, hashMap, tail, id);
    } else {
      forall k | i - 1 < k < |rest.effects| ensures TargetOf(hashMap, tail[k]) != Some(id) {
        assert tail[k] == todo[k + 1];
      }
      UpdateRecordsLastWriteAt(md5, next, hashMap, tail, id, i - 1);
    }
  }

  /** The loop keeps the MD5 invariant. */
  lemma {:induction false} UpdateRecordsKeepHashes(md5: string -> string, table: Table, hashMap: HashMap, todo: seq<Document>)
    requires HashesMatch(md5, table)
    ensures HashesMatch(md5, UpdateRecords(md5, table, hashMap, todo).table)
    decreases |todo|
  {
    if todo != [] && SourceOf(todo[0]) in hashMap {
      var id0 := Get(hashMap[SourceOf(todo[0])], "id");
      var next := UpdateTarget(md5, table, id0, todo[0]);
      UpdateRecordsKeepHashes(md5, next, hashMap, todo[1..]);
    }
  }

  /** How a run ends: `sys.exit()` because nothing changed, normally, or by
      an exception escaping `asyncLoader`. */
  datatype SyncOutcome = NothingToParse | Synced | Raised(error: Exception)

  /** The outcome, the new table and index, and the effects in order. */
  datatype SyncRun = SyncRun(outcome: SyncOutcome, table: Table, entries: seq<Document>, trace: seq<Effect>)

  /** The part of a run after the early exit: delete the vectors of the
      sources of `todo`, split and add the new chunks, then rewrite the
      records. */
  function Replace(md5: string -> string, sha256: string -> string, splitter: string -> seq<Document>,
                   table: Table, entries: seq<Document>, hashMap: HashMap, todo: seq<Document>): (r: SyncRun)
    ensures r.outcome != NothingToParse
    ensures r.trace != [] && r.trace[0] == DeleteVectors(PageSources(todo))
  {
    var pageSources := PageSources(todo);
    var kept := Surviving(entries, pageSources);
    match SplitAndDedup(splitter, sha256, todo)
    case Err(e) => SyncRun(Raised(e), table, kept, [DeleteVectors(pageSources)])
    case Ok(vectors) =>
      var records := UpdateRecords(md5, table, hashMap, todo);
      SyncRun(if records.error.Some? then Raised(records.error.value) else Synced,
              records.table, kept + vectors,
              [DeleteVectors(pageSources), AddVectors(vectors)] + records.effects)
  }

  /** One run of `asyncLoader` on the store table `table` and the index
      contents `entries`, given what `parsedList` returned and the fetched,
      transformed documents. */
  function Sync(md5: string -> string, sha256: string -> string, splitter: string -> seq<Document>,
                table: Table, entries: seq<Document>, parsed: seq<Document>, docsTransformed: seq<Document>): (r: SyncRun)
    ensures r.outcome == NothingToParse <==> Docs2Update(HashMapOf(parsed), md5, docsTransformed) == []
  {
    var hashMap := HashMapOf(parsed);
    var docs2update := Docs2Update(hashMap, md5, docsTransformed);
    if docs2update == [] then SyncRun(NothingToParse, table, entries, [])
    else Replace(md5, sha256, splitter, table, entries, hashMap, docs2update)
  }

  /** The run exits early exactly when every fetched document matches its
      record, and then it touches neither the index nor the store. */
  lemma SyncExitsEarly(md5: string -> string, sha256: string -> string, splitter: string -> seq<Document>,
                       table: Table, entries: seq<Document>, parsed: seq<Document>, docsTransformed: seq<Document>)
    ensures var run := Sync(md5, sha256, splitter, table, entries, parsed, docsTransformed);
            && (run.outcome == NothingToParse <==>
                  forall d :: d in docsTransformed ==> !NeedsUpdate(HashMapOf(parsed), md5, d))
            && (run.outcome == NothingToParse ==> run.table == table && run.entries == entries && run.trace == [])
  {
    var todo := Docs2Update(HashMapOf(parsed), md5, docsTransformed);
    if todo != [] {
      assert todo[0] in todo;
    }
  }

  /** When the run does not exit early, its first effect deletes the vectors
      of the selected sources, its second (if the split succeeds) adds the
      new chunks, and every later effect is a record update. */
  lemma SyncOrdersEffects(md5: string -> string, sha256: string -> string, splitter: string -> seq<Document>,
                          table: Table, entries: seq<Document>, parsed: seq<Document>, docsTransformed: seq<Document>)
    ensures var run := Sync(md5, sha256, splitter, table, entries, parsed, docsTransformed);
            var todo := Docs2Update(HashMapOf(parsed), md5, docsTransformed);
            run.outcome != NothingToParse ==>
              && |run.trace| >= 1
              && run.trace[0] == DeleteVectors(PageSources(todo))
              && (SplitAndDedup(splitter, sha256, todo).Err? ==> run.trace == [DeleteVectors(PageSources(todo))])
              && (SplitAndDedup(splitter, sha256, todo).Ok? ==>
                    |run.trace| >= 2 && run.trace[1] == AddVectors(SplitAndDedup(splitter, sha256, todo).value))
              && forall k :: 2 <= k < |run.trace| ==> run.trace[k].UpdateRecord?
  {
    var todo := Docs2Update(HashMapOf(parsed), md5, docsTransformed);
    UpdateRecordsEffects(md5, table, HashMapOf(parsed), todo);
  }

  /** Every chunk produced from the selected documents belongs to one of the
      selected sources. */
  lemma VectorsFromSelectedSources(splitter: string -> seq<Document>, sha256: string -> string, todo: seq<Document>)
    requires SplitAndDedup(splitter, sha256, todo).Ok?
    ensures forall v :: v in SplitAndDedup(splitter, sha256, todo).value ==> MatchesSource(v, PageSources(todo))
  {
    var chunks := ChunkDocuments(splitter, todo).value;
    ChunksInheritSource(splitter, todo);
    DedupFromSubsequence(sha256, chunks, {});
    SubsequenceMembers(Dedup(sha256, chunks), chunks);
    forall v | v in Dedup(sha256, chunks) ensures MatchesSource(v, PageSources(todo)) {
      var d, p :| d in todo && p in splitter(d.content) && "source" in d.metadata &&
                  v == Document(p.content, p.metadata["source" := d.metadata["source"]]);
      var i :| 0 <= i < |todo| && todo[i] == d;
      assert PageSources(todo)[i] == Some(d.metadata["source"]);
    }
  }

  /** Deleting by `sources` and then adding chunks all of those sources
      leaves exactly those chunks for the sources and the rest as before. */
  lemma ReplaceEntries(entries: seq<Document>, sources: seq<Option<string>>, vectors: seq<Document>)
    requires forall v :: v in vectors ==> MatchesSource(v, sources)
    ensures Matching(Surviving(entries, sources) + vectors, sources) == vectors
    ensures Surviving(Surviving(entries, sources) + vectors, sources) == Surviving(entries, sources)
  {
    var kept := Surviving(entries, sources);
    DeleteBySourcesContract(entries, sources);
    FilterAppend(FromSources(sources), kept, vectors);
    FilterAppend(NotFromSources(sources), kept, vectors);
    FilterKeepsAll(FromSources(sources), vectors);
    FilterDropsAll(NotFromSources(sources), vectors);
    FilterIdempotent(NotFromSources(sources), entries);
  }

  /** Replace, not duplicate: after a run that got past the split, the index
      entries of the selected sources are exactly the new chunks, and the
      entries of every other source are as before. */
  lemma SyncReplacesVectors(md5: string -> string, sha256: string -> string, splitter: string -> seq<Document>,
                            table: Table, entries: seq<Document>, parsed: seq<Document>, docsTransformed: seq<Document>)
    requires Docs2Update(HashMapOf(parsed), md5, docsTransformed) != []
    requires SplitAndDedup(splitter, sha256, Docs2Update(HashMapOf(parsed), md5, docsTransformed)).Ok?
    ensures var run := Sync(md5, sha256, splitter, table, entries, parsed, docsTransformed);
            var todo := Docs2Update(HashMapOf(parsed), md5, docsTransformed);
            var sources := PageSources(todo);
            && Matching(run.entries, sources) == SplitAndDedup(splitter, sha256, todo).value
            && Surviving(run.entries, sources) == Surviving(entries, sources)
  {
    var todo := Docs2Update(HashMapOf(parsed), md5, docsTransformed);
    var sources := PageSources(todo);
    var vectors := SplitAndDedup(splitter, sha256, todo).value;
    var run := Sync(md5, sha256, splitter, table, entries, parsed, docsTransformed);
    assert run.entries == Surviving(entries, sources) + vectors;
    VectorsFromSelectedSources(splitter, sha256, todo);
    ReplaceEntries(entries, sources, vectors);
  }

  /** A run that got past the split keeps the store's MD5 invariant and its
      set of ids, and ends normally exactly when every selected source is a
      key of `hash_map`. */
  lemma SyncUpdatesRecords(md5: string -> string, sha256: string -> string, splitter: string -> seq<Document>,
                           table: Table, entries: seq<Document>, parsed: seq<Document>, docsTransformed: seq<Document>)
    requires HashesMatch(md5, table)
    requires Docs2Update(HashMapOf(parsed), md5, docsTransformed) != []
    requires SplitAndDedup(splitter, sha256, Docs2Update(HashMapOf(parsed), md5, docsTransformed)).Ok?
    ensures var run := Sync(md5, sha256, splitter, table, entries, parsed, docsTransformed);
            var hashMap := HashMapOf(parsed);
            var todo := Docs2Update(hashMap, md5, docsTransformed);
            && HashesMatch(md5, run.table)
            && run.table.Keys == table.Keys
            && (run.outcome == Synced <==> forall d :: d in todo ==> SourceOf(d) in hashMap)
  {
    var hashMap := HashMapOf(parsed);
    var todo := Docs2Update(hashMap, md5, docsTransformed);
    UpdateRecordsEffects(md5, table, hashMap, todo);
    UpdateRecordsKeepHashes(md5, table, hashMap, todo);
    var r := UpdateRecords(md5, table, hashMap, todo);
    if r.error.Some? {
      assert todo[|r.effects|] in todo;
    } else {
      forall d | d in todo ensures SourceOf(d) in hashMap {
        var i :| 0 <= i < |todo| && todo[i] == d;
      }
    }
  }

  /** After a run that ends normally, each selected document's record holds
      its new text, metadata and MD5 with `parsed = 1` (the last selected
      document wins when several target one id), and every row no selected
      document targets is unchanged. */
  lemma SyncRecordsLastWriter(md5: string -> string, sha256: string -> string, splitter: string -> seq<Document>,
                              table: Table, entries: seq<Document>, parsed: seq<Document>, docsTransformed: seq<Document>)
    requires Sync(md5, sha256, splitter, table, entries, parsed, docsTransformed).outcome == Synced
    ensures var run := Sync(md5, sha256, splitter, table, entries, parsed, docsTransformed);
            var hashMap := HashMapOf(parsed);
            var todo := Docs2Update(hashMap, md5, docsTransformed);
            forall id :: id in table ==> LastWriterWins(md5, hashMap, todo, |todo|, id, table[id], run.table[id])
  {
    var hashMap := HashMapOf(parsed);
    var todo := Docs2Update(hashMap, md5, docsTransformed);
    var r := UpdateRecords(md5, table, hashMap, todo);
    UpdateRecordsEffects(md5, table, hashMap, todo);
    assert r.error.None? && |r.effects| == |todo|;
    assert Sync(md5, sha256, splitter, table, entries, parsed, docsTransformed).table == r.table;
    forall id | id in table {
      UpdateRecordsRow(md5, table, hashMap, todo, id);
    }
  }

  /** The loader is given the sources of the parsed records; when every
      document it returns carries one of them, the record-update loop cannot
      raise. */
  lemma LoadedSourcesNeverRaise(md5: string -> string, sha256: string -> string, splitter: string -> seq<Document>,
                                table: Table, entries: seq<Document>, parsed: seq<Document>, docsTransformed: seq<Document>)
    requires forall d :: d in docsTransformed ==> SourceOf(d) in PageSources(parsed)
    requires ChunkDocuments(splitter, Docs2Update(HashMapOf(parsed), md5, docsTransformed)).Ok?
    ensures Sync(md5, sha256, splitter, table, entries, parsed, docsTransformed).outcome in {NothingToParse, Synced}
  {
    var hashMap := HashMapOf(parsed);
    var todo := Docs2Update(hashMap, md5, docsTransformed);
    HashMapLastWins(parsed);
    forall d | d in todo ensures SourceOf(d) in hashMap {
      var i :| 0 <= i < |parsed| && PageSources(parsed)[i] == SourceOf(d);
      assert SourceOf(parsed[i]) == SourceOf(d);
    }
    UpdateRecordsEffects(md5, table, hashMap, todo);
  }

  /** A second run with nothing changed upstream does nothing. The first run
      fetches the one page `d` for the source of the parsed row `id`, and the
      split of `d` does not raise. The first run then does not raise either.
      When the second run's `parsedList` returns that same row again, the
      loader is asked for the same URL. When it returns the same page, the
      run exits with nothing to parse: either the first run rewrote the row
      with the page's MD5, or it already matched and nothing changed. */
  lemma SecondRunNothingToParse(md5: string -> string, sha256: string -> string, splitter: string -> seq<Document>,
                                table: Table, entries: seq<Document>, id: string, d: Document)
    requires id in table
    requires SourceOf(d) == SourceOf(ParsedEntry(id, table[id]))
    requires !LacksSource(splitter, d)
    ensures var run := Sync(md5, sha256, splitter, table, entries, [ParsedEntry(id, table[id])], [d]);
            && !run.outcome.Raised?
            && id in run.table
            && PageSources([ParsedEntry(id, run.table[id])]) == PageSources([ParsedEntry(id, table[id])])
            && Sync(md5, sha256, splitter, run.table, run.entries, [ParsedEntry(id, run.table[id])], [d]) ==
                 SyncRun(NothingToParse, run.table, run.entries, [])
  {
    var e := ParsedEntry(id, table[id]);
    SingleHashMap(e);
    SingleSelection(HashMapOf([e]), md5, d);
    if NeedsUpdate(HashMapOf([e]), md5, d) {
      SecondRunAfterUpdate(md5, sha256, splitter, table, entries, id, d);
    } else {
      SyncSkips(md5, sha256, splitter, table, entries, [e], [d]);
    }
  }

  /** `SecondRunNothingToParse` when the first run selects the page. */
  lemma SecondRunAfterUpdate(md5: string -> string, sha256: string -> string, splitter: string -> seq<Document>,
                             table: Table, entries: seq<Document>, id: string, d: Document)
    requires id in table
    requires SourceOf(d) == SourceOf(ParsedEntry(id, table[id]))
    requires !LacksSource(splitter, d)
    requires NeedsUpdate(HashMapOf([ParsedEntry(id, table[id])]), md5, d)
    ensures var run := Sync(md5, sha256, splitter, table, entries, [ParsedEntry(id, table[id])], [d]);
            && run.outcome == Synced
            && id in run.table
            && SourceOf(ParsedEntry(id, run.table[id])) == SourceOf(d)
            && Sync(md5, sha256, splitter, run.table, run.entries, [ParsedEntry(id, run.table[id])], [d]) ==
                 SyncRun(NothingToParse, run.table, run.entries, [])
  {
    FirstRunWrites(md5, sha256, splitter, table, entries, id, d);
    var run := Sync(md5, sha256, splitter, table, entries, [ParsedEntry(id, table[id])], [d]);
    SecondRunMatches(md5, id, d);
    SyncSkips(md5, sha256, splitter, run.table, run.entries, [ParsedEntry(id, run.table[id])], [d]);
  }

  /** A run whose selection is empty changes nothing. */
  lemma SyncSkips(md5: string -> string, sha256: string -> string, splitter: string -> seq<Document>,
                  table: Table, entries: seq<Document>, parsed: seq<Document>, docsTransformed: seq<Document>)
    requires Docs2Update(HashMapOf(parsed), md5, docsTransformed) == []
    ensures Sync(md5, sha256, splitter, table, entries, parsed, docsTransformed) == SyncRun(NothingToParse, table, entries, [])
  {
  }

  /** `hash_map` for a single parsed row. */
  lemma SingleHashMap(e: Document)
    ensures HashMapOf([e]) == map[SourceOf(e) := e.metadata]
  {
    assert [e][..0] == [];
  }

  /** The selection for a single fetched page. */
  lemma SingleSelection(hashMap: HashMap, md5: string -> string, d: Document)
    ensures Docs2Update(hashMap, md5, [d]) == if NeedsUpdate(hashMap, md5, d) then [d] else []
  {
    assert Filter(Stale(hashMap, md5), [d]) ==
           Filter(Stale(hashMap, md5), []) + (if NeedsUpdate(hashMap, md5, d) then [d] else []);
  }

  /** A run that ends normally leaves the table the record loop computes. */
  lemma SyncedTable(md5: string -> string, sha256: string -> string, splitter: string -> seq<Document>,
                    table: Table, entries: seq<Document>, parsed: seq<Document>, docsTransformed: seq<Document>)
    requires Sync(md5, sha256, splitter, table, entries, parsed, docsTransformed).outcome == Synced
    ensures Sync(md5, sha256, splitter, table, entries, parsed, docsTransformed).table ==
            UpdateRecords(md5, table, HashMapOf(parsed), Docs2Update(HashMapOf(parsed), md5, docsTransformed)).table
  {
  }

  /** The first run of `SecondRunAfterUpdate` ends normally. */
  lemma FirstRunSynced(md5: string -> string, sha256: string -> string, splitter: string -> seq<Document>,
                       table: Table, entries: seq<Document>, id: string, d: Document)
    requires id in table
    requires SourceOf(d) == SourceOf(ParsedEntry(id, table[id]))
    requires !LacksSource(splitter, d)
    requires NeedsUpdate(HashMapOf([ParsedEntry(id, table[id])]), md5, d)
    ensures Sync(md5, sha256, splitter, table, entries, [ParsedEntry(id, table[id])], [d]).outcome == Synced
  {
    var e := ParsedEntry(id, table[id]);
    SingleHashMap(e);
    var hashMap := HashMapOf([e]);
    SingleSelection(hashMap, md5, d);
    assert SplitAndDedup(splitter, sha256, [d]).Ok?;
    assert [d][1..] == [];
    assert UpdateRecords(md5, table, hashMap, [d]).error.None?;
  }

  /** The first run of `SecondRunAfterUpdate` rewrites row `id` with the
      page. */
  lemma FirstRunWrites(md5: string -> string, sha256: string -> string, splitter: string -> seq<Document>,
                       table: Table, entries: seq<Document>, id: string, d: Document)
    requires id in table
    requires SourceOf(d) == SourceOf(ParsedEntry(id, table[id]))
    requires !LacksSource(splitter, d)
    requires NeedsUpdate(HashMapOf([ParsedEntry(id, table[id])]), md5, d)
    ensures var run := Sync(md5, sha256, splitter, table, entries, [ParsedEntry(id, table[id])], [d]);
            run.outcome == Synced && run.table == UpdateDocumentIn(md5, table, id, d)
  {
    var e := ParsedEntry(id, table[id]);
    FirstRunSynced(md5, sha256, splitter, table, entries, id, d);
    SyncedTable(md5, sha256, splitter, table, entries, [e], [d]);
    SingleHashMap(e);
    SingleSelection(HashMapOf([e]), md5, d);
    SinglePageRecords(md5, table, id, e, d);
  }

  /** The record loop of a run over one parsed row `e` and one page `d` of
      its source, when the page is selected: the page lands in row `id`. */
  lemma SinglePageRecords(md5: string -> string, table: Table, id: string, e: Document, d: Document)
    requires SourceOf(d) == SourceOf(e) && Get(e.metadata, "id") == Some(id)
    requires Docs2Update(HashMapOf([e]), md5, [d]) != []
    ensures UpdateRecords(md5, table, HashMapOf([e]), Docs2Update(HashMapOf([e]), md5, [d])).table ==
            UpdateDocumentIn(md5, table, id, d)
  {
    SingleHashMap(e);
    var hashMap := HashMapOf([e]);
    SingleSelection(hashMap, md5, d);
    SingleUpdate(md5, table, hashMap, id, d);
  }

  /** The record loop over one page whose source maps to row `id`. */
  lemma SingleUpdate(md5: string -> string, table: Table, hashMap: HashMap, id: string, d: Document)
    requires TargetOf(hashMap, d) == Some(id)
    ensures UpdateRecords(md5, table, hashMap, [d]).table == UpdateDocumentIn(md5, table, id, d)
  {
    assert [d][1..] == [];
  }

  /** Once row `id` holds the page `d`, the page matches its record. */
  lemma SecondRunMatches(md5: string -> string, id: string, d: Document)
    ensures var e := ParsedEntry(id, Record(d.content, d.metadata, md5(d.content), true));
            && SourceOf(e) == SourceOf(d)
            && Docs2Update(HashMapOf([e]), md5, [d]) == []
  {
    var e := ParsedEntry(id, Record(d.content, d.metadata, md5(d.content), true));
    SingleHashMap(e);
    var hashMap := HashMapOf([e]);
    assert Get(e.metadata, "source") == Get(d.metadata, "source");
    assert Get(e.metadata, "hash") == Some(md5(d.content));
    assert !NeedsUpdate(hashMap, md5, d);
    SingleSelection(hashMap, md5, d);
  }

  /** The record loop from position `i` on, unrolled once: it stops at an
      unknown source, and otherwise issues one update and goes on. */
  lemma UpdateRecordsAt(md5: string -> string, table: Table, hashMap: HashMap, todo: seq<Document>, i: nat,
                        updates: seq<Effect>, all: RecordsRun)
    requires i < |todo|
    requires var rest := UpdateRecords(md5, table, hashMap, todo[i..]);
             all == RecordsRun(rest.table, rest.error, updates + rest.effects)
    ensures SourceOf(todo[i]) !in hashMap ==> all == RecordsRun(table, Some(KeyError(SourceOf(todo[i]))), updates)
    ensures SourceOf(todo[i]) in hashMap ==>
              var id := TargetOf(hashMap, todo[i]);
              var rest := UpdateRecords(md5, UpdateTarget(md5, table, id, todo[i]), hashMap, todo[i + 1..]);
              all == RecordsRun(rest.table, rest.error, (updates + [UpdateRecord(id, todo[i])]) + rest.effects)
  {
    assert todo[i..][0] == todo[i] && todo[i..][1..] == todo[i + 1..];
    assert updates + [] == updates;
    if SourceOf(todo[i]) in hashMap {
      var id := TargetOf(hashMap, todo[i]);
      var rest := UpdateRecords(md5, UpdateTarget(md5, table, id, todo[i]), hashMap, todo[i + 1..]);
      assert updates + ([UpdateRecord(id, todo[i])] + rest.effects) == (updates + [UpdateRecord(id, todo[i])]) + rest.effects;
    }
  }

  /** The record-update loop of `asyncLoader` over the store. */
  method UpdateSelectedRecords(store: SQLiteDocStore, hashMap: HashMap, docs2update: seq<Document>)
    returns (error: Option<Exception>, updates: seq<Effect>)
    requires store.Valid()
    modifies store
    ensures store.Valid()
    ensures RecordsRun(store.docs, error, updates) == UpdateRecords(store.md5, old(store.docs), hashMap, docs2update)
  {
    ghost var all := UpdateRecords(store.md5, store.docs, hashMap, docs2update);
    assert docs2update[0..] == docs2update;
    updates := [];
    var i := 0;
    while i < |docs2update|
      invariant 0 <= i <= |docs2update|
      invariant store.Valid()
      invariant var rest := UpdateRecords(store.md5, store.docs, hashMap, docs2update[i..]);
                all == RecordsRun(rest.table, rest.error, updates + rest.effects)
    {
      var doc := docs2update[i];
      UpdateRecordsAt(store.md5, store.docs, hashMap, docs2update, i, updates, all);
      if SourceOf(doc) !in hashMap {
        // the lookup of an unknown source raises KeyError
        return Some(KeyError(SourceOf(doc))), updates;
      }
      var metadata := hashMap[SourceOf(doc)];
      var docId := Get(metadata, "id");
      if docId.Some? {
        store.UpdateDocument(docId.value, doc);
      }
      // with docId == None the UPDATE matches no row
      updates := updates + [UpdateRecord(docId, doc)];
      i := i + 1;
    }
    assert docs2update[i..] == [] && updates + [] == updates;
    error := None;
  }

  /** The delete, add and record-update steps of `asyncLoader`. */
  method ReplaceStale(store: SQLiteDocStore, index: VectorIndex, splitter: string -> seq<Document>, sha256: string -> string,
                      hashMap: HashMap, docs2update: seq<Document>)
    returns (outcome: SyncOutcome, trace: seq<Effect>)
    requires store.Valid()
    modifies store, index
    ensures store.Valid()
    ensures SyncRun(outcome, store.docs, index.entries, trace) ==
            Replace(store.md5, sha256, splitter, old(store.docs), old(index.entries), hashMap, docs2update)
  {
    ghost var run := Replace(store.md5, sha256, splitter, store.docs, index.entries, hashMap, docs2update);
    // delete step
    var pageSources := PageSources(docs2update);
    index.DeleteBySources(pageSources);
    trace := [DeleteVectors(pageSources)];

    // add step
    var vectors := SplitText(splitter, sha256, docs2update);
    if vectors.Err? {
      assert run == SyncRun(Raised(vectors.error), store.docs, index.entries, trace);
      return Raised(vectors.error), trace;
    }
    index.AddDocuments(vectors.value);
    trace := trace + [AddVectors(vectors.value)];
    assert run.entries == index.entries;

    // record step
    var error, updates := UpdateSelectedRecords(store, hashMap, docs2update);
    trace := trace + updates;
    outcome := if error.Some? then Raised(error.value) else Synced;
  }

  /** `asyncLoader`. `load` stands for fetching the given URLs with
      `AsyncHtmlLoader` and normalising them (tag and class deny-lists,
      blank-line removal, Markdown conversion); `splitter` and `sha256` are
      those of `split_text`. */
  method AsyncLoader(store: SQLiteDocStore, index: VectorIndex, load: seq<Option<string>> -> seq<Document>,
                     splitter: string -> seq<Document>, sha256: string -> string)
    returns (outcome: SyncOutcome, trace: seq<Effect>, ghost parsed: seq<Document>)
    requires store.Valid()
    modifies store, index
    ensures store.Valid()
    ensures IsParsedListing(old(store.docs), parsed)
    ensures SyncRun(outcome, store.docs, index.entries, trace) ==
            Sync(store.md5, sha256, splitter, old(store.docs), old(index.entries), parsed, load(PageSources(parsed)))
  {
    var parsedDocs := store.ParsedList();
    parsed := parsedDocs;
    var hashMap := BuildHashMap(parsedDocs);
    var docsTransformed := load(PageSources(parsedDocs));
    var docs2update := SelectForUpdate(hashMap, store.md5, docsTransformed);
    if |docs2update| < 1 {
      // sys.exit()
      return NothingToParse, [], parsed;
    }
    outcome, trace := ReplaceStale(store, index, splitter, sha256, hashMap, docs2update);
  }
}
