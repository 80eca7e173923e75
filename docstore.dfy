/** utils/docstore.py: `SQLiteDocStore`, the `docs` table held as a map from
    row id to record, with the MD5 of every record's text kept beside it. */
module DocStore {
  import opened Wrappers
  import opened Index

  /** One row of `docs (id, text, metadata, hash, parsed)`, keyed by `id`.
      The JSON column holds the metadata map; `json.dumps` followed by
      `json.loads` gives the same string map back. */
  datatype Record = Record(text: string, metadata: Metadata, hash: string, parsed: bool)

  type Table = map<string, Record>

  /** The table invariant: each row's `hash` is the MD5 of its `text`. */
  predicate HashesMatch(md5: string -> string, table: Table)
  {
    forall id :: id in table ==> table[id].hash == md5(table[id].text)
  }

  /** The row `add` inserts for `doc`. */
  function NewRecord(md5: string -> string, doc: Document): Record
  {
    Record(doc.content, doc.metadata, md5(doc.content), false)
  }

  /** `UPDATE docs SET text=?, metadata=?, parsed=1, hash=? WHERE id=?`. */
  function UpdateDocumentIn(md5: string -> string, table: Table, id: string, doc: Document): (r: Table)
    ensures r.Keys == table.Keys
    ensures id in table ==> r[id] == Record(doc.content, doc.metadata, md5(doc.content), true)
    ensures id !in table ==> r == table
    ensures forall k :: k in table && k != id ==> r[k] == table[k]
    ensures HashesMatch(md5, table) ==> HashesMatch(md5, r)
  {
    if id in table then table[id := Record(doc.content, doc.metadata, md5(doc.content), true)] else table
  }

  /** `UPDATE docs SET parsed=1 WHERE id IN (...)`. */
  function MarkParsedIn(table: Table, ids: seq<string>): (r: Table)
    ensures r.Keys == table.Keys
    ensures forall k :: k in table && k in ids ==> r[k].parsed
    ensures forall k :: k in table ==>
              r[k].text == table[k].text && r[k].metadata == table[k].metadata && r[k].hash == table[k].hash
    ensures forall k :: k in table && k !in ids ==> r[k] == table[k]
    ensures forall md5: string -> string :: HashesMatch(md5, table) ==> HashesMatch(md5, r)
  {
    map k | k in table :: if k in ids then table[k].(parsed := true) else table[k]
  }

  /** A row as `list` returns it: the text, and the metadata with `id`. */
  function UnparsedEntry(id: string, rec: Record): Document
  {
    Document(rec.text, rec.metadata["id" := id])
  }

  /** A row as `parsedList` returns it: `id`, then `hash`, added to the
      metadata. */
  function ParsedEntry(id: string, rec: Record): Document
  {
    Document(rec.text, rec.metadata["id" := id]["hash" := rec.hash])
  }

  function Entry(id: string, rec: Record, withHash: bool): Document
  {
    if withHash then ParsedEntry(id, rec) else UnparsedEntry(id, rec)
  }

  /** What `parsedList` may return for `table`: because of `limit 1`, one of
      the parsed rows if there is any, and nothing otherwise. */
  ghost predicate IsParsedListing(table: Table, r: seq<Document>)
  {
    && |r| <= 1
    && (r == [] <==> forall id :: id in table ==> !table[id].parsed)
    && forall d :: d in r ==> exists id :: id in table && table[id].parsed && d == ParsedEntry(id, table[id])
  }

  /** Every listed row carries its own id in its metadata. */
  lemma EntryCarriesId(id: string, rec: Record, withHash: bool)
    ensures "id" in Entry(id, rec, withHash).metadata && Entry(id, rec, withHash).metadata["id"] == id
  {
    if withHash {
      assert ParsedEntry(id, rec).metadata == rec.metadata["id" := id]["hash" := rec.hash];
    }
  }

  /** `r` lists the rows `ids` of `table`, all distinct and all from `rows`. */
  ghost predicate FetchedRows(table: Table, rows: set<string>, withHash: bool, ids: seq<string>, r: seq<Document>)
  {
    && |ids| == |r|
    && (forall k :: 0 <= k < |ids| ==> ids[k] in rows && ids[k] in table && r[k] == Entry(ids[k], table[ids[k]], withHash))
    && forall k, l :: 0 <= k < l < |ids| ==> ids[k] != ids[l]
  }

  /** Fetching one more, not yet fetched row. */
  lemma FetchedRowsSnoc(table: Table, rows: set<string>, withHash: bool, ids: seq<string>, r: seq<Document>, fid: string)
    requires FetchedRows(table, rows, withHash, ids, r)
    requires fid in rows && fid in table && fid !in ids
    ensures FetchedRows(table, rows, withHash, ids + [fid], r + [Entry(fid, table[fid], withHash)])
  {
  }

  /** Once every selected row is fetched, the listing holds exactly their
      entries, each once. */
  lemma FetchedRowsListing(table: Table, rows: set<string>, withHash: bool, ids: seq<string>, r: seq<Document>)
    requires rows <= table.Keys
    requires FetchedRows(table, rows, withHash, ids, r)
    requires forall id :: id in ids <==> id in rows
    ensures forall d :: d in r <==> exists id :: id in rows && d == Entry(id, table[id], withHash)
    ensures forall i, j :: 0 <= i < j < |r| ==> r[i] != r[j]
  {
    forall id | id in rows ensures Entry(id, table[id], withHash) in r {
      var k :| 0 <= k < |ids| && ids[k] == id;
      assert r[k] == Entry(id, table[id], withHash);
    }
    forall i, j | 0 <= i < j < |r| ensures r[i] != r[j] {
      EntryCarriesId(ids[i], table[ids[i]], withHash);
      EntryCarriesId(ids[j], table[ids[j]], withHash);
    }
  }

  class SQLiteDocStore {
    /** `generate_md5_hash`: MD5 of the UTF-8 bytes, as hex. */
    const md5: string -> string
    /** The `docs` table. */
    var docs: Table

    ghost predicate Valid()
      reads this
    {
      HashesMatch(md5, docs)
    }

    /** Opens the table as it was last committed; `CREATE TABLE IF NOT
        EXISTS` leaves an existing table as it is. */
    constructor (md5: string -> string, committed: Table)
      requires HashesMatch(md5, committed)
      ensures Valid()
      ensures this.md5 == md5 && docs == committed
    {
      this.md5 := md5;
      docs := committed;
    }

    /** `update_document`: an existing row gets the new text and metadata,
        their MD5 and `parsed = 1`; an absent id updates no row. */
    method UpdateDocument(docId: string, doc: Document)
      requires Valid()
      modifies this
      ensures Valid()
      ensures docs == UpdateDocumentIn(md5, old(docs), docId, doc)
    {
      docs := UpdateDocumentIn(md5, docs, docId, doc);
    }

    /** `add`: insert a new unparsed row under the generated id `newId`
        (`uuid4()`); SQLite refuses an id that is already a primary key. */
    method Add(doc: Document, newId: string) returns (r: Result<string, Exception>)
      requires Valid()
      modifies this
      ensures Valid()
      ensures newId in old(docs) ==> r == Err(IntegrityError(newId)) && docs == old(docs)
      ensures newId !in old(docs) ==>
                r == Ok(newId) && docs == old(docs)[newId := NewRecord(md5, doc)]
    {
      if newId in docs {
        return Err(IntegrityError(newId));
      }
      docs := docs[newId := NewRecord(md5, doc)];
      r := Ok(newId);
    }

    /** `update_parsed_status`: flag the listed rows as parsed. */
    method UpdateParsedStatus(docIds: seq<string>)
      requires Valid()
      modifies this
      ensures Valid()
      ensures docs == MarkParsedIn(old(docs), docIds)
    {
      docs := MarkParsedIn(docs, docIds);
    }

    /** `search`: the stored text and metadata, or `KeyError`, which carries
        the missing id in place of the code's "not found" message. */
    method Search(docId: string) returns (r: Result<Document, Exception>)
      ensures docId in docs ==> r == Ok(Document(docs[docId].text, docs[docId].metadata))
      ensures docId !in docs ==> r == Err(KeyError(Some(docId)))
    {
      if docId !in docs {
        return Err(KeyError(Some(docId)));
      }
      var row := docs[docId];
      r := Ok(Document(row.text, row.metadata));
    }

    /** The cursor loop shared by `list` and `parsedList`: one document per
        selected row, in the (unspecified) order SQLite returns them. */
    method FetchAll(rows: set<string>, withHash: bool) returns (r: seq<Document>)
      requires rows <= docs.Keys
      ensures |r| == |rows|
      ensures forall d :: d in r <==> exists id :: id in rows && d == Entry(id, docs[id], withHash)
      ensures forall i, j :: 0 <= i < j < |r| ==> r[i] != r[j]
    {
      var pending := rows;
      ghost var ids: seq<string> := [];
      r := [];
      while pending != {}
        invariant pending <= rows
        invariant |r| == |rows - pending|
        invariant forall id :: id in ids <==> id in rows && id !in pending
        invariant FetchedRows(docs, rows, withHash, ids, r)
        decreases |pending|
      {
        var fid :| fid in pending;
        assert rows - (pending - {fid}) == (rows - pending) + {fid};
        FetchedRowsSnoc(docs, rows, withHash, ids, r, fid);
        r := r + [Entry(fid, docs[fid], withHash)];
        ids := ids + [fid];
        pending := pending - {fid};
      }
      FetchedRowsListing(docs, rows, withHash, ids, r);
    }

    /** `list`: every unparsed row, each once, with `id` in its metadata. */
    method List() returns (r: seq<Document>)
      ensures forall id :: id in docs && !docs[id].parsed ==> UnparsedEntry(id, docs[id]) in r
      ensures forall d :: d in r ==> exists id :: id in docs && !docs[id].parsed && d == UnparsedEntry(id, docs[id])
      ensures |r| == |set id | id in docs && !docs[id].parsed|
      ensures forall i, j :: 0 <= i < j < |r| ==> r[i] != r[j]
    {
      var rows := set id | id in docs && !docs[id].parsed;
      r := FetchAll(rows, false);
    }

    /** `parsedList`: `SELECT ... WHERE parsed=1 limit 1`, so at most one
        parsed row, with `id` and `hash` in its metadata. */
    method ParsedList() returns (r: seq<Document>)
      ensures IsParsedListing(docs, r)
    {
      var parsedRows := set id | id in docs && docs[id].parsed;
      var rows: set<string> := {};
      if parsedRows != {} {
        var first :| first in parsedRows;
        rows := {first};
      }
      r := FetchAll(rows, true);
      if r == [] {
        forall id | id in docs ensures !docs[id].parsed {
          assert id !in parsedRows;
        }
      }
    }

    /** `truncate`: every row is deleted. */
    method Truncate()
      requires Valid()
      modifies this
      ensures Valid()
      ensures docs == map[]
    {
      docs := map[];
    }

    /** `delete`: the row with this id, if any, is deleted. */
    method Delete(docId: string)
      requires Valid()
      modifies this
      ensures Valid()
      ensures docs == old(docs) - {docId}
    {
      docs := docs - {docId};
    }
  }
}
