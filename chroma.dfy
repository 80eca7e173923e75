/** The Chroma vector index, by its contract only: an ordered collection of
    indexed chunks, with `delete_by_sources` (utils/chroma.py) and
    `add_documents`. Embeddings and similarity search are not modelled. */
module Chroma {
  import opened Wrappers
  import opened Seqs
  import opened Index

  /** The filter `{"source": {"$in": sources}}` matches entry `e`. */
  predicate MatchesSource(e: Document, sources: seq<Option<string>>)
  {
    "source" in e.metadata && Some(e.metadata["source"]) in sources
  }

  function FromSources(sources: seq<Option<string>>): Document -> bool
  {
    e => MatchesSource(e, sources)
  }

  function NotFromSources(sources: seq<Option<string>>): Document -> bool
  {
    e => !MatchesSource(e, sources)
  }

  /** The entries of `entries` whose `source` is one of `sources`. */
  function Matching(entries: seq<Document>, sources: seq<Option<string>>): seq<Document>
  {
    Filter(FromSources(sources), entries)
  }

  /** The entries `delete_by_sources(sources)` leaves behind. */
  function Surviving(entries: seq<Document>, sources: seq<Option<string>>): seq<Document>
  {
    Filter(NotFromSources(sources), entries)
  }

  /** Deletion by source removes every entry of those sources, keeps every
      other entry in order, and leaves nothing of those sources behind. */
  lemma DeleteBySourcesContract(entries: seq<Document>, sources: seq<Option<string>>)
    ensures forall e :: e in Surviving(entries, sources) <==> e in entries && !MatchesSource(e, sources)
    ensures IsSubsequence(Surviving(entries, sources), entries)
    ensures Matching(Surviving(entries, sources), sources) == []
  {
    FilterIsSubsequence(NotFromSources(sources), entries);
    FilterDropsAll(FromSources(sources), Surviving(entries, sources));
  }

  class VectorIndex {
    /** The indexed chunks, each with its metadata. */
    var entries: seq<Document>

    /** Opens the persisted collection. */
    constructor (persisted: seq<Document>)
      ensures entries == persisted
    {
      entries := persisted;
    }

    /** `delete_by_sources`: delete every vector whose `source` is in
        `sources`; sources without vectors delete nothing. */
    method DeleteBySources(sources: seq<Option<string>>)
      modifies this
      ensures entries == Surviving(old(entries), sources)
    {
      entries := Surviving(entries, sources);
    }

    /** `add_documents`: index new chunks after the existing ones. */
    method AddDocuments(chunks: seq<Document>)
      modifies this
      ensures entries == old(entries) + chunks
    {
      entries := entries + chunks;
    }
  }
}
