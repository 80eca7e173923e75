/** utils/index.py: documents and their metadata, the chat-history filter,
    the string half of `prepend_to_file`, and `split_text` — heading split,
    source tagging and run-scoped deduplication of chunks. */
module Index {
  import opened Wrappers
  import opened Seqs

  /** Metadata of a LangChain `Document`; keys and values are strings. */
  type Metadata = map<string, string>

  /** A LangChain `Document`: `page_content` and `metadata`. */
  datatype Document = Document(content: string, metadata: Metadata)

  /** `metadata.get(key)`. */
  function Get(m: Metadata, key: string): Option<string>
  {
    if key in m then Some(m[key]) else None
  }

  // ---------------------------------------------------------------------
  // get_user_conversation

  /** The concrete `BaseMessage` classes a chat history can hold. Subclasses
      such as `HumanMessageChunk` are represented by their base kind. */
  datatype MessageKind = Human | AI | System | Tool | Function | Chat

  datatype Message = Message(kind: MessageKind, content: string)

  /** `isinstance(item, (HumanMessage, AIMessage))`. */
  predicate IsDialogue(m: Message)
  {
    m.kind == Human || m.kind == AI
  }

  /** `get_user_conversation`: the query/answer part of a chat history. */
  function UserConversation(history: seq<Message>): (r: seq<Message>)
    ensures |r| <= |history|
    ensures forall m :: m in r <==> m in history && IsDialogue(m)
  {
    Filter(IsDialogue, history)
  }

  /** The conversation holds exactly the Human and AI messages of the
      history, each as often as there, in their original order. */
  lemma UserConversationIsDialogue(history: seq<Message>)
    ensures forall m :: m in UserConversation(history) <==> m in history && IsDialogue(m)
    ensures forall m :: multiset(UserConversation(history))[m] ==
                        if IsDialogue(m) then multiset(history)[m] else 0
    ensures IsSubsequence(UserConversation(history), history)
  {
    FilterCounts(IsDialogue, history);
    FilterIsSubsequence(IsDialogue, history);
  }

  // ---------------------------------------------------------------------
  // prepend_to_file, without the file I/O

  /** The content `prepend_to_file` writes back: the prefix, a blank line,
      then the original content, which can be read back unchanged. */
  function PrependedContent(prefix: string, original: string): (r: string)
    ensures |r| == |prefix| + 2 + |original|
    ensures r[..|prefix|] == prefix
    ensures r[|prefix|..|prefix| + 2] == "\n\n"
    ensures r[|prefix| + 2..] == original
  {
    prefix + "\n\n" + original
  }

  const HeadlessSuffix: string := "-headless.md"
  const MarkdownSuffix: string := ".md"

  /** `HeadlessSuffix` occurs in `s` starting at index `i`. */
  predicate HeadlessAt(s: string, i: nat)
  {
    i + |HeadlessSuffix| <= |s| && s[i..i + |HeadlessSuffix|] == HeadlessSuffix
  }

  predicate ContainsHeadless(s: string)
  {
    exists i: nat | i < |s| :: HeadlessAt(s, i)
  }

  /** `file_path.replace('-headless.md', '.md')`: Python's `str.replace`,
      which rewrites every non-overlapping occurrence from left to right. */
  function RenamedPath(path: string): (r: string)
    ensures |r| <= |path|
    decreases |path|
  {
    if |path| < |HeadlessSuffix| then path
    else if path[..|HeadlessSuffix|] == HeadlessSuffix then
      MarkdownSuffix + RenamedPath(path[|HeadlessSuffix|..])
    else [path[0]] + RenamedPath(path[1..])
  }

  /** Dropping the first character cannot create a marker. */
  lemma NoHeadlessInTail(s: string)
    requires s != [] && !ContainsHeadless(s)
    ensures !ContainsHeadless(s[1..])
  {
    forall i: nat | HeadlessAt(s[1..], i) ensures HeadlessAt(s, i + 1) {
      assert s[1..][i..i + |HeadlessSuffix|] == s[i + 1..i + 1 + |HeadlessSuffix|];
    }
  }

  /** A path without the headless marker is left as it is. */
  lemma {:induction false} RenamedPathKeepsPlainPath(path: string)
    requires !ContainsHeadless(path)
    ensures RenamedPath(path) == path
    decreases |path|
  {
    if |path| >= |HeadlessSuffix| {
      assert !HeadlessAt(path, 0);
      NoHeadlessInTail(path);
      RenamedPathKeepsPlainPath(path[1..]);
      assert path == [path[0]] + path[1..];
    }
  }

  /** `stem + HeadlessSuffix` does not start with the marker when the stem
      is non-empty and holds none. */
  lemma NoHeadlessAtStart(stem: string)
    requires stem != [] && !ContainsHeadless(stem)
    ensures (stem + HeadlessSuffix)[..|HeadlessSuffix|] != HeadlessSuffix
  {
    var s := stem + HeadlessSuffix;
    var n := |HeadlessSuffix|;
    if |stem| >= n {
      assert !HeadlessAt(stem, 0);
      assert s[..n] == stem[..n];
    } else {
      // The marker's first character '-' never reappears inside it, so no
      // occurrence can start within the stem and run into the suffix.
      assert s[|stem|] == HeadlessSuffix[0] == '-';
      assert HeadlessSuffix[|stem|] != '-';
      assert s[..n][|stem|] == s[|stem|];
    }
  }

  /** A finished dialog log `<stem>-headless.md` is renamed to `<stem>.md`
      when the stem itself holds no marker. */
  lemma {:induction false} RenamedPathDropsHeadless(stem: string)
    requires !ContainsHeadless(stem)
    ensures RenamedPath(stem + HeadlessSuffix) == stem + MarkdownSuffix
    decreases |stem|
  {
    var s := stem + HeadlessSuffix;
    if stem == [] {
      assert s == HeadlessSuffix && s[|HeadlessSuffix|..] == [];
    } else {
      NoHeadlessAtStart(stem);
      NoHeadlessInTail(stem);
      RenamedPathDropsHeadless(stem[1..]);
      assert s[1..] == stem[1..] + HeadlessSuffix;
      assert stem == [stem[0]] + stem[1..];
    }
  }

  // ---------------------------------------------------------------------
  // split_text: splitting and source tagging

  /** The chunks of one document with its `source` written into each
      chunk's metadata (`chunk.metadata['source'] = doc.metadata['source']`). */
  function WithSource(parsed: seq<Document>, source: string): seq<Document>
  {
    seq(|parsed|, i requires 0 <= i < |parsed| =>
      Document(parsed[i].content, parsed[i].metadata["source" := source]))
  }

  /** The splitter produced chunks for `d` but `d` has no `source`, so the
      tagging loop raises `KeyError('source')`. */
  predicate LacksSource(splitter: string -> seq<Document>, d: Document)
  {
    splitter(d.content) != [] && "source" !in d.metadata
  }

  /** The concatenated, tagged chunk list of `split_text`'s first loop;
      `splitter` is `MarkdownHeaderTextSplitter.split_text` for headings of
      levels 1 to 3 with the headings kept in the chunks. */
  function ChunkDocuments(splitter: string -> seq<Document>, docs: seq<Document>): (r: Result<seq<Document>, Exception>)
    ensures r.Err? <==> exists d :: d in docs && LacksSource(splitter, d)
    ensures r.Err? ==> r.error == KeyError(Some("source"))
  {
    if docs == [] then Ok([])
    else
      var init := docs[..|docs| - 1];
      var d := docs[|docs| - 1];
      assert docs == init + [d];
      var parsed := splitter(d.content);
      var before := ChunkDocuments(splitter, init);
      if before.Err? then before
      else if parsed == [] then before
      else if "source" !in d.metadata then
        assert d in docs && LacksSource(splitter, d);
        Err(KeyError(Some("source")))
      else Ok(before.value + WithSource(parsed, d.metadata["source"]))
  }

  /** One round of the tagging loop: the chunks of the next document,
      tagged, are appended. */
  lemma ChunkDocumentsStep(splitter: string -> seq<Document>, docs: seq<Document>, i: nat, chunks: seq<Document>, tagged: seq<Document>)
    requires i < |docs|
    requires ChunkDocuments(splitter, docs[..i]) == Ok(chunks)
    requires splitter(docs[i].content) == [] ==> tagged == []
    requires splitter(docs[i].content) != [] ==>
               "source" in docs[i].metadata &&
               tagged == WithSource(splitter(docs[i].content), docs[i].metadata["source"])
    ensures ChunkDocuments(splitter, docs[..i + 1]) == Ok(chunks + tagged)
  {
    var upTo := docs[..i + 1];
    assert upTo[..|upTo| - 1] == docs[..i] && upTo[|upTo| - 1] == docs[i];
    if tagged == [] {
      assert chunks + tagged == chunks;
    }
  }

  /** Every chunk comes from a chunk the splitter produced for one of the
      documents, and carries that document's `source`; nothing is invented. */
  lemma {:induction false} ChunksInheritSource(splitter: string -> seq<Document>, docs: seq<Document>)
    requires ChunkDocuments(splitter, docs).Ok?
    ensures forall c :: c in ChunkDocuments(splitter, docs).value ==>
              exists d, p :: d in docs && p in splitter(d.content) && "source" in d.metadata &&
                             c == Document(p.content, p.metadata["source" := d.metadata["source"]])
  {
    if docs != [] {
      var init := docs[..|docs| - 1];
      var d := docs[|docs| - 1];
      assert docs == init + [d];
      ChunksInheritSource(splitter, init);
      var parsed := splitter(d.content);
      if parsed != [] {
        forall c | c in WithSource(parsed, d.metadata["source"])
          ensures exists p :: p in parsed && c == Document(p.content, p.metadata["source" := d.metadata["source"]])
        {
          var i :| 0 <= i < |parsed| && WithSource(parsed, d.metadata["source"])[i] == c;
          assert parsed[i] in parsed;
        }
      }
    }
  }

  // ---------------------------------------------------------------------
  // split_text: deduplication

  /** The chunk hashes (`hash_text` of the content) occurring in `s`. */
  function Hashes(hash: string -> string, s: seq<Document>): set<string>
  {
    set c | c in s :: hash(c.content)
  }

  /** No two chunks of `s` have the same hash. */
  predicate DistinctHashes(hash: string -> string, s: seq<Document>)
  {
    forall i, j :: 0 <= i < j < |s| ==> hash(s[i].content) != hash(s[j].content)
  }

  /** The deduplication loop run on `s` with the hashes in `seen` already
      taken. */
  function DedupFrom(hash: string -> string, s: seq<Document>, seen: set<string>): seq<Document>
    decreases |s|
  {
    if s == [] then []
    else
      var h := hash(s[0].content);
      if h in seen then DedupFrom(hash, s[1..], seen)
      else [s[0]] + DedupFrom(hash, s[1..], seen + {h})
  }

  /** The deduplication loop with a fresh, call-local set of seen hashes. */
  function Dedup(hash: string -> string, s: seq<Document>): seq<Document>
  {
    DedupFrom(hash, s, {})
  }

  /** What `split_text` returns. */
  function SplitAndDedup(splitter: string -> seq<Document>, hash: string -> string, docs: seq<Document>): (r: Result<seq<Document>, Exception>)
    ensures r.Err? <==> exists d :: d in docs && LacksSource(splitter, d)
    ensures r.Err? ==> r.error == KeyError(Some("source"))
    ensures r.Ok? ==> DistinctHashes(hash, r.value)
  {
    match ChunkDocuments(splitter, docs)
    case Err(e) => Err(e)
    case Ok(chunks) =>
      DedupFromDistinctHashes(hash, chunks, {});
      Ok(Dedup(hash, chunks))
  }

  /** Run on `s` after `seen`, the loop keeps exactly the hashes of `s` not
      in `seen`. */
  lemma {:induction false} DedupFromHashes(hash: string -> string, s: seq<Document>, seen: set<string>)
    ensures Hashes(hash, DedupFrom(hash, s, seen)) == Hashes(hash, s) - seen
    decreases |s|
  {
    if s != [] {
      var h := hash(s[0].content);
      var t := s[1..];
      assert s == [s[0]] + t;
      assert Hashes(hash, s) == {h} + Hashes(hash, t);
      if h in seen {
        DedupFromHashes(hash, t, seen);
      } else {
        var rest := DedupFrom(hash, t, seen + {h});
        DedupFromHashes(hash, t, seen + {h});
        var r := [s[0]] + rest;
        assert r[1..] == rest;
        assert Hashes(hash, r) == {h} + Hashes(hash, rest);
      }
    }
  }

  /** ... each of them once ... */
  lemma {:induction false} DedupFromDistinctHashes(hash: string -> string, s: seq<Document>, seen: set<string>)
    ensures DistinctHashes(hash, DedupFrom(hash, s, seen))
    ensures forall c :: c in DedupFrom(hash, s, seen) ==> hash(c.content) !in seen
    decreases |s|
  {
    if s != [] {
      var h := hash(s[0].content);
      var t := s[1..];
      if h in seen {
        DedupFromDistinctHashes(hash, t, seen);
      } else {
        var rest := DedupFrom(hash, t, seen + {h});
        DedupFromDistinctHashes(hash, t, seen + {h});
        var r := [s[0]] + rest;
        forall i, j | 0 <= i < j < |r| ensures hash(r[i].content) != hash(r[j].content) {
          if i == 0 {
            assert r[j] in rest;
          } else {
            assert r[i] == rest[i - 1] && r[j] == rest[j - 1];
          }
        }
      }
    }
  }

  /** The hashes of a non-empty list: its head's and its tail's. */
  lemma HashesCons(hash: string -> string, s: seq<Document>)
    requires s != []
    ensures Hashes(hash, s) == {hash(s[0].content)} + Hashes(hash, s[1..])
  {
    assert s == [s[0]] + s[1..];
  }

  /** Set bookkeeping for one step of the loop: the new hashes of the
      whole list, split into the head's and the tail's. */
  lemma NewHashesStep(all: set<string>, tail: set<string>, seen: set<string>, h: string)
    requires all == {h} + tail
    ensures h in seen ==> all - seen == tail - seen
    ensures h !in seen ==> all - seen == {h} + (tail - (seen + {h})) && h !in tail - (seen + {h})
  {
  }

  /** ... so it keeps as many chunks as there are new hashes. */
  lemma {:induction false} DedupFromLength(hash: string -> string, s: seq<Document>, seen: set<string>)
    ensures |DedupFrom(hash, s, seen)| == |Hashes(hash, s) - seen|
    decreases |s|
  {
    if s != [] {
      var h := hash(s[0].content);
      var t := s[1..];
      HashesCons(hash, s);
      NewHashesStep(Hashes(hash, s), Hashes(hash, t), seen, h);
      if h in seen {
        DedupFromLength(hash, t, seen);
      } else {
        DedupFromLength(hash, t, seen + {h});
      }
    }
  }

  /** ... in their original order, inventing nothing. */
  lemma {:induction false} DedupFromSubsequence(hash: string -> string, s: seq<Document>, seen: set<string>)
    ensures IsSubsequence(DedupFrom(hash, s, seen), s)
    decreases |s|
  {
    if s != [] {
      var h := hash(s[0].content);
      var t := s[1..];
      if h in seen {
        DedupFromSubsequence(hash, t, seen);
      } else {
        var rest := DedupFrom(hash, t, seen + {h});
        DedupFromSubsequence(hash, t, seen + {h});
        assert ([s[0]] + rest)[0] == s[0] && ([s[0]] + rest)[1..] == rest;
      }
    }
  }

  /** Appending one chunk to the input appends it to the output exactly when
      its hash is new. */
  lemma {:induction false} DedupFromSnoc(hash: string -> string, s: seq<Document>, seen: set<string>, x: Document)
    ensures DedupFrom(hash, s + [x], seen) ==
            DedupFrom(hash, s, seen) + (if hash(x.content) in seen + Hashes(hash, s) then [] else [x])
    decreases |s|
  {
    if s == [] {
      assert [] + [x] == [x] && [x][1..] == [];
    } else {
      var h := hash(s[0].content);
      assert (s + [x])[0] == s[0] && (s + [x])[1..] == s[1..] + [x];
      assert s == [s[0]] + s[1..];
      assert Hashes(hash, s) == {h} + Hashes(hash, s[1..]);
      if h in seen {
        DedupFromSnoc(hash, s[1..], seen, x);
      } else {
        DedupFromSnoc(hash, s[1..], seen + {h}, x);
      }
    }
  }

  /** Independent statement of first-occurrence-wins: scanning the chunk
      list, the chunk at each position is kept iff no earlier chunk has its
      hash. */
  function FirstOccurrences(hash: string -> string, s: seq<Document>): seq<Document>
  {
    if s == [] then []
    else
      var init := s[..|s| - 1];
      var x := s[|s| - 1];
      FirstOccurrences(hash, init) + (if hash(x.content) in Hashes(hash, init) then [] else [x])
  }

  lemma {:induction false} DedupIsFirstOccurrences(hash: string -> string, s: seq<Document>)
    ensures Dedup(hash, s) == FirstOccurrences(hash, s)
  {
    if s != [] {
      var init := s[..|s| - 1];
      var x := s[|s| - 1];
      assert s == init + [x];
      DedupIsFirstOccurrences(hash, init);
      DedupFromSnoc(hash, init, {}, x);
      assert {} + Hashes(hash, init) == Hashes(hash, init);
    }
  }

  /** A chunk at position i is in the output iff it is the first chunk with
      its hash; every output chunk is such a first occurrence. */
  lemma FirstOccurrenceWins(hash: string -> string, s: seq<Document>)
    ensures forall i :: 0 <= i < |s| && hash(s[i].content) !in Hashes(hash, s[..i]) ==> s[i] in Dedup(hash, s)
    ensures forall c :: c in Dedup(hash, s) ==>
              exists i :: 0 <= i < |s| && s[i] == c && hash(c.content) !in Hashes(hash, s[..i])
  {
    DedupIsFirstOccurrences(hash, s);
    FirstOccurrencesKept(hash, s);
    FirstOccurrencesOnly(hash, s);
  }

  lemma {:induction false} FirstOccurrencesKept(hash: string -> string, s: seq<Document>)
    ensures forall i :: 0 <= i < |s| && hash(s[i].content) !in Hashes(hash, s[..i]) ==> s[i] in FirstOccurrences(hash, s)
  {
    if s != [] {
      var n := |s| - 1;
      var init := s[..n];
      var x := s[n];
      FirstOccurrencesKept(hash, init);
      forall i | 0 <= i < |s| && hash(s[i].content) !in Hashes(hash, s[..i])
        ensures s[i] in FirstOccurrences(hash, s)
      {
        if i < n {
          assert init[..i] == s[..i] && init[i] == s[i];
        } else {
          assert s[..i] == init;
        }
      }
    }
  }

  lemma {:induction false} FirstOccurrencesOnly(hash: string -> string, s: seq<Document>)
    ensures forall c :: c in FirstOccurrences(hash, s) ==>
              exists i :: 0 <= i < |s| && s[i] == c && hash(c.content) !in Hashes(hash, s[..i])
  {
    if s != [] {
      var n := |s| - 1;
      var init := s[..n];
      var x := s[n];
      FirstOccurrencesOnly(hash, init);
      forall c | c in FirstOccurrences(hash, s)
        ensures exists i :: 0 <= i < |s| && s[i] == c && hash(c.content) !in Hashes(hash, s[..i])
      {
        if c in FirstOccurrences(hash, init) {
          var i :| 0 <= i < n && init[i] == c && hash(c.content) !in Hashes(hash, init[..i]);
          assert init[..i] == s[..i] && s[i] == c;
        } else {
          assert c == x && s[..n] == init;
        }
      }
    }
  }

  /** Deduplicating a list whose hashes are already distinct changes
      nothing. */
  lemma {:induction false} DedupFromDistinct(hash: string -> string, s: seq<Document>, seen: set<string>)
    requires DistinctHashes(hash, s)
    requires Hashes(hash, s) !! seen
    ensures DedupFrom(hash, s, seen) == s
    decreases |s|
  {
    if s != [] {
      var h := hash(s[0].content);
      var t := s[1..];
      assert s[0] in s;
      assert h in Hashes(hash, s);
      forall c | c in t ensures hash(c.content) != h {
        var j :| 0 <= j < |t| && t[j] == c;
        assert s[j + 1] == c;
      }
      assert Hashes(hash, t) !! seen + {h};
      DedupFromDistinct(hash, t, seen + {h});
      assert s == [s[0]] + t;
    }
  }

  /** The output of `split_text`'s deduplication: no repeated hash, an
      order-preserving subsequence of the chunk list, every input hash
      represented, as many chunks as distinct hashes; and deduplicating it
      again changes nothing. */
  lemma DedupProperties(hash: string -> string, s: seq<Document>)
    ensures DistinctHashes(hash, Dedup(hash, s))
    ensures IsSubsequence(Dedup(hash, s), s)
    ensures Hashes(hash, Dedup(hash, s)) == Hashes(hash, s)
    ensures |Dedup(hash, s)| == |Hashes(hash, s)| <= |s|
    ensures Dedup(hash, Dedup(hash, s)) == Dedup(hash, s)
  {
    DedupFromHashes(hash, s, {});
    DedupFromDistinctHashes(hash, s, {});
    DedupFromLength(hash, s, {});
    DedupFromSubsequence(hash, s, {});
    DedupFromDistinct(hash, Dedup(hash, s), {});
    HashesBound(hash, s);
  }

  lemma {:induction false} HashesBound(hash: string -> string, s: seq<Document>)
    ensures |Hashes(hash, s)| <= |s|
  {
    if s != [] {
      assert s == [s[0]] + s[1..];
      assert Hashes(hash, s) == {hash(s[0].content)} + Hashes(hash, s[1..]);
      HashesBound(hash, s[1..]);
    }
  }

  /** One round of the deduplication loop. */
  lemma DedupStep(hash: string -> string, chunks: seq<Document>, k: nat, seen: set<string>)
    requires k < |chunks|
    ensures DedupFrom(hash, chunks[k..], seen) ==
            if hash(chunks[k].content) in seen then DedupFrom(hash, chunks[k + 1..], seen)
            else [chunks[k]] + DedupFrom(hash, chunks[k + 1..], seen + {hash(chunks[k].content)})
    ensures Hashes(hash, chunks[..k + 1]) == Hashes(hash, chunks[..k]) + {hash(chunks[k].content)}
  {
    assert chunks[k..][1..] == chunks[k + 1..];
    assert chunks[..k + 1] == chunks[..k] + [chunks[k]];
  }

  /** `split_text`: split every document at its headings, tag every chunk
      with the document's `source`, then keep the first chunk of each hash.
      `hash` is `hash_text` (SHA-256); the seen-hash set is local to the
      call. */
  method SplitText(splitter: string -> seq<Document>, hash: string -> string, documents: seq<Document>)
    returns (r: Result<seq<Document>, Exception>)
    ensures r == SplitAndDedup(splitter, hash, documents)
  {
    var chunks: seq<Document> := [];
    var i := 0;
    while i < |documents|
      invariant 0 <= i <= |documents|
      invariant ChunkDocuments(splitter, documents[..i]) == Ok(chunks)
    {
      var doc := documents[i];
      var parsedChunks := splitter(doc.content);
      var tagged: seq<Document> := [];
      var j := 0;
      while j < |parsedChunks|
        invariant 0 <= j <= |parsedChunks|
        invariant j > 0 ==> "source" in doc.metadata
        invariant j > 0 ==> tagged == WithSource(parsedChunks[..j], doc.metadata["source"])
        invariant j == 0 ==> tagged == []
      {
        if "source" !in doc.metadata {
          // doc.metadata['source'] raises KeyError
          assert doc in documents && LacksSource(splitter, doc);
          return Err(KeyError(Some("source")));
        }
        var chunk := parsedChunks[j];
        tagged := tagged + [Document(chunk.content, chunk.metadata["source" := doc.metadata["source"]])];
        j := j + 1;
      }
      assert parsedChunks[..|parsedChunks|] == parsedChunks;
      ChunkDocumentsStep(splitter, documents, i, chunks, tagged);
      chunks := chunks + tagged;
      i := i + 1;
    }
    assert documents[..|documents|] == documents;

    var seenHashes: set<string> := {};
    var uniqueChunks: seq<Document> := [];
    var k := 0;
    while k < |chunks|
      invariant 0 <= k <= |chunks|
      invariant seenHashes == Hashes(hash, chunks[..k])
      invariant uniqueChunks + DedupFrom(hash, chunks[k..], seenHashes) == Dedup(hash, chunks)
    {
      var chunkHash := hash(chunks[k].content);
      DedupStep(hash, chunks, k, seenHashes);
      if chunkHash !in seenHashes {
        uniqueChunks := uniqueChunks + [chunks[k]];
        seenHashes := seenHashes + {chunkHash};
      }
      k := k + 1;
    }
    assert chunks[k..] == [] && uniqueChunks + [] == uniqueChunks;
    r := Ok(uniqueChunks);
  }
}
