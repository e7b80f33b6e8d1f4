/**
 The index (index/cluceneindex.cpp): handles that are opened on demand, a transaction, and the cache of changed
 documents over the documents on disk.  CLucene itself is a list of documents that are found by id.
 */
module CLuceneIndexes {
  import opened Wrappers
  import opened IndexStates
  import opened Documents

  // ----- The documents on disk -----

  // IndexReader::deleteDocuments
  function Deleted(docs: seq<Document>, r: Id): seq<Document> {
    if docs == [] then []
    else Deleted(docs[..|docs| - 1], r) + if IdOf(docs[|docs| - 1]) == Some(r) then [] else [docs[|docs| - 1]]
  }

  // The first document of a resource.
  function Stored(docs: seq<Document>, r: Id): Option<Document> {
    if docs == [] then None else if IdOf(docs[0]) == Some(r) then Some(docs[0]) else Stored(docs[1..], r)
  }

  predicate Proper(d: Document) {
    IdOf(d).Some? && Properties(d) != multiset{}
  }

  /** Every document has an id of its own and is not empty. */
  ghost predicate WellKept(docs: seq<Document>) {
    && (forall i | 0 <= i < |docs| :: Proper(docs[i]))
    && (forall i, j | 0 <= i < j < |docs| :: IdOf(docs[i]) != IdOf(docs[j]))
  }

  function Projection(docs: seq<Document>): map<Id, Entries> {
    if docs == [] then map[]
    else
      var front, last := Projection(docs[..|docs| - 1]), docs[|docs| - 1];
      if IdOf(last).Some? then front[IdOf(last).value := Properties(last)] else front
  }

  // A default search of any document finds exactly its values.
  ghost predicate DocumentsAgree(docs: seq<Document>) {
    forall d <- docs :: TextAgrees(d)
  }

  lemma {:induction false} DeletedAreGone(docs: seq<Document>, r: Id)
    ensures forall d <- Deleted(docs, r) :: d in docs && IdOf(d) != Some(r)
    ensures DocumentsAgree(docs) ==> DocumentsAgree(Deleted(docs, r))
    decreases |docs|
  {
    hide IdOf, TextAgrees;
    if docs != [] {
      assert docs == docs[..|docs| - 1] + [docs[|docs| - 1]];
      DeletedAreGone(docs[..|docs| - 1], r);
    }
  }

  lemma FrontIsWellKept(docs: seq<Document>)
    requires WellKept(docs) && docs != []
    ensures var front, last := docs[..|docs| - 1], docs[|docs| - 1];
            && WellKept(front) && Proper(last) && docs == front + [last]
            && (forall d <- front :: IdOf(d) != IdOf(last))
  {
    hide IdOf, Proper;
    var front := docs[..|docs| - 1];
    assert forall i | 0 <= i < |front| :: front[i] == docs[i];
  }

  lemma {:induction false} DeletedProjection(docs: seq<Document>, r: Id)
    requires WellKept(docs)
    ensures Projection(Deleted(docs, r)) == Projection(docs) - {r} && WellKept(Deleted(docs, r))
    decreases |docs|
  {
    hide IdOf, Properties, Proper, WellKept, Projection;
    if docs == [] {
      NothingOnDisk();
    } else {
      var front, last := docs[..|docs| - 1], docs[|docs| - 1];
      FrontIsWellKept(docs);
      DeletedProjection(front, r);
      AddedProjection(front, last);
      var id := IdOf(last).value;
      UpdateWithout(Projection(front), id, Properties(last), r);
      if id == r {
        assert Deleted(docs, r) == Deleted(front, r);
      } else {
        assert Deleted(docs, r) == Deleted(front, r) + [last];
        DeletedAreGone(front, r);
        AddedProjection(Deleted(front, r), last);
      }
    }
  }

  lemma UpdateWithout(m: map<Id, Entries>, k: Id, v: Entries, r: Id)
    ensures m[k := v] - {r} == if k == r then m - {r} else (m - {r})[k := v]
  {
  }

  lemma NothingOnDisk()
    ensures Projection([]) == map[] && WellKept([])
  {
  }

  lemma AddedProjection(docs: seq<Document>, d: Document)
    requires WellKept(docs) && Proper(d) && forall e <- docs :: IdOf(e) != IdOf(d)
    ensures WellKept(docs + [d]) && IdOf(d).Some?
    ensures Projection(docs + [d]) == Projection(docs)[IdOf(d).value := Properties(d)]
  {
    hide IdOf, Properties;
    assert (docs + [d])[..|docs|] == docs;
  }

  lemma {:induction false} ProjectionAt(docs: seq<Document>, i: nat)
    requires WellKept(docs) && i < |docs|
    ensures IdOf(docs[i]).value in Projection(docs) && Projection(docs)[IdOf(docs[i]).value] == Properties(docs[i])
    decreases |docs|
  {
    hide IdOf, Properties;
    var front := docs[..|docs| - 1];
    if i < |front| {
      assert forall i | 0 <= i < |front| :: front[i] == docs[i];
      ProjectionAt(front, i);
    }
  }

  lemma {:induction false} ProjectionHasIds(docs: seq<Document>, r: Id)
    requires r in Projection(docs)
    ensures exists i :: 0 <= i < |docs| && IdOf(docs[i]) == Some(r)
    decreases |docs|
  {
    hide IdOf, Properties;
    var front, last := docs[..|docs| - 1], docs[|docs| - 1];
    if IdOf(last) == Some(r) {
      assert docs[|docs| - 1] == last;
    } else {
      ProjectionHasIds(front, r);
      var i :| 0 <= i < |front| && IdOf(front[i]) == Some(r);
      assert docs[i] == front[i];
    }
  }

  lemma {:induction false} StoredIsFound(docs: seq<Document>, r: Id)
    ensures match Stored(docs, r)
            case Some(d) => exists i :: 0 <= i < |docs| && docs[i] == d && IdOf(d) == Some(r)
            case None => forall i | 0 <= i < |docs| :: IdOf(docs[i]) != Some(r)
    decreases |docs|
  {
    hide IdOf;
    if docs != [] {
      if IdOf(docs[0]) == Some(r) {
        assert docs[0] == Stored(docs, r).value;
      } else {
        StoredIsFound(docs[1..], r);
        assert forall i | 0 <= i < |docs| :: i == 0 || docs[i] == docs[1..][i - 1];
      }
    }
  }

  /** Looking a resource up on disk finds what the projection says. */
  lemma StoredIsProjection(docs: seq<Document>, r: Id)
    requires WellKept(docs)
    ensures match Stored(docs, r)
            case Some(d) => r in Projection(docs) && Projection(docs)[r] == Properties(d)
            case None => r !in Projection(docs)
  {
    hide IdOf, Properties, Projection, Stored;
    StoredIsFound(docs, r);
    if Stored(docs, r).Some? {
      var i :| 0 <= i < |docs| && docs[i] == Stored(docs, r).value && IdOf(docs[i]) == Some(r);
      ProjectionAt(docs, i);
    } else if r in Projection(docs) {
      ProjectionHasIds(docs, r);
    }
  }

  // What is not in the projection is not on disk.
  lemma NotOnDisk(docs: seq<Document>, r: Id)
    requires WellKept(docs) && r !in Projection(docs)
    ensures forall d <- docs :: IdOf(d) != Some(r)
  {
    hide IdOf, Properties, Projection;
    forall d <- docs ensures IdOf(d) != Some(r) {
      var i :| 0 <= i < |docs| && docs[i] == d;
      ProjectionAt(docs, i);
    }
  }

  // One more document on disk.
  lemma PutDocument(docs: seq<Document>, d: Document)
    requires WellKept(docs) && IdOf(d).Some? && Properties(d) != multiset{} && forall e <- docs :: IdOf(e) != IdOf(d)
    ensures WellKept(docs + [d]) && Projection(docs + [d]) == Projection(docs)[IdOf(d).value := Properties(d)]
    ensures DocumentsAgree(docs) && TextAgrees(d) ==> DocumentsAgree(docs + [d])
  {
    hide IdOf, Properties, Projection, TextAgrees, WellKept;
    AddedProjection(docs, d);
  }

  // ----- The cache -----

  ghost predicate Labelled(cache: map<Id, Document>) {
    forall r | r in cache :: IdOf(cache[r]) == Some(r)
  }

  function CacheOf(cache: map<Id, Document>): map<Id, Entries> {
    map r | r in cache :: Properties(cache[r])
  }

  ghost predicate CacheAgrees(cache: map<Id, Document>) {
    forall r | r in cache :: TextAgrees(cache[r])
  }

  lemma CacheHasKeys(cache: map<Id, Document>)
    ensures CacheOf(cache).Keys == cache.Keys
  {
  }

  lemma EmptyCache()
    ensures CacheOf(map[]) == map[] && Labelled(map[]) && CacheAgrees(map[])
  {
  }

  lemma CacheGet(cache: map<Id, Document>, r: Id)
    requires r in cache && Labelled(cache)
    ensures IdOf(cache[r]) == Some(r) && r in CacheOf(cache) && CacheOf(cache)[r] == Properties(cache[r])
    ensures CacheAgrees(cache) ==> TextAgrees(cache[r])
  {
  }

  lemma CachePut(cache: map<Id, Document>, r: Id, d: Document)
    requires Labelled(cache) && IdOf(d) == Some(r)
    ensures Labelled(cache[r := d]) && CacheOf(cache[r := d]) == CacheOf(cache)[r := Properties(d)]
    ensures CacheAgrees(cache) && TextAgrees(d) ==> CacheAgrees(cache[r := d])
  {
    hide IdOf, Properties, TextAgrees;
  }

  // Changing a document does not depend on whether it was in the cache.
  lemma WriteLoaded(ix: Index, r: Id, entries: Entries)
    ensures Written(Loaded(ix, r), r, entries) == Written(ix, r, entries)
    ensures Loaded(ix, r).cached[r] == View(ix, r) && Loaded(ix, r).cached.Keys == ix.cached.Keys + {r}
  {
  }

  // The cached documents that are not empty, without those still pending.
  ghost function Flushed(cached: map<Id, Entries>, pending: set<Id>): map<Id, Entries> {
    map r | r in NonEmpty(cached) && r !in pending :: cached[r]
  }

  lemma FlushOne(cached: map<Id, Entries>, pending: set<Id>, r: Id)
    requires r in pending && r in cached
    ensures r !in Flushed(cached, pending)
    ensures Flushed(cached, pending - {r}) ==
            if cached[r] == multiset{} then Flushed(cached, pending) else Flushed(cached, pending)[r := cached[r]]
  {
  }

  lemma FlushEnds(cached: map<Id, Entries>)
    ensures Flushed(cached, cached.Keys) == map[]
    ensures Flushed(cached, {}) == map r | r in NonEmpty(cached) :: cached[r]
    ensures Flushed(cached, {}) == map[] <==> NonEmpty(cached) == {}
  {
    if NonEmpty(cached) != {} {
      var r :| r in NonEmpty(cached);
      assert r in Flushed(cached, {});
    }
  }

  // ----- The index -----

  class CLuceneIndex {
    var documents: seq<Document>   // on disk
    var indexPresent: bool
    var indexReader: bool
    var indexWriter: bool
    var searcher: bool
    var transactionID: int
    var documentCache: map<Id, Document>

    /** The index as a value. */
    ghost function State(): Index
      reads this
    {
      Index(Projection(documents), CacheOf(documentCache), indexPresent, transactionID != 0)
    }

    // The writer is never open together with a reader or a searcher, and is open only on an index.
    ghost predicate Exclusive()
      reads this
    {
      !(indexWriter && (indexReader || searcher)) && (indexWriter ==> indexPresent)
    }

    ghost predicate Kept()
      reads this
    {
      && Exclusive() && WellKept(documents) && (!indexPresent ==> documents == []) && transactionID in {0, 1}
      && Labelled(documentCache)
    }

    ghost predicate Valid()
      reads this
    {
      Kept() && (transactionID == 0 ==> documentCache == map[])
    }

    // A default search of any document finds exactly its values.
    ghost predicate AllAgree()
      reads this
    {
      DocumentsAgree(documents) && CacheAgrees(documentCache)
    }

    constructor ()
      ensures Valid() && AllAgree() && State() == NO_INDEX
    {
      documents, indexPresent := [], false;
      indexReader, indexWriter, searcher := false, false, false;
      transactionID, documentCache := 0, map[];
    }

    lemma ValidIsSound()
      requires Valid()
      ensures Sound(State())
    {
      hide IdOf, Properties;
      forall r | r in Projection(documents) ensures Projection(documents)[r] != multiset{} {
        ProjectionHasIds(documents, r);
        var i :| 0 <= i < |documents| && IdOf(documents[i]) == Some(r);
        ProjectionAt(documents, i);
      }
    }

    // ----- Handles -----

    method CloseWriter()
      modifies this`indexWriter
      ensures !indexWriter
    {
      indexWriter := false;
    }

    method CloseReader()
      modifies this`indexReader, this`searcher
      ensures !indexReader && !searcher
    {
      searcher, indexReader := false, false;
    }

    method GetIndexReader()
      requires Exclusive()
      modifies this`indexReader, this`indexWriter
      ensures Exclusive() && indexReader
    {
      if !indexReader {
        CloseWriter();
        indexReader := true;
      }
    }

    // A writer on a directory without an index creates one.
    method GetIndexWriter()
      requires Exclusive()
      modifies this`indexReader, this`indexWriter, this`searcher, this`indexPresent
      ensures Exclusive() && indexWriter && indexPresent
    {
      if !indexWriter {
        CloseReader();
        indexWriter, indexPresent := true, true;
      }
    }

    method GetIndexSearcher()
      requires Exclusive()
      modifies this`searcher, this`indexWriter
      ensures Exclusive() && searcher
    {
      if !searcher {
        CloseWriter();
        searcher := true;
      }
    }

    // ----- Documents -----

    method DocEmpty(d: Document) returns (empty: bool)
      ensures empty <==> Properties(d) == multiset{}
    {
      hide IdOf, Properties;
      NothingInEmpty("");
      var cnt := 0;
      for i := 0 to |d|
        invariant cnt == |Properties(d[..i])|
      {
        assert d[..i + 1] == d[..i] + [d[i]];
        Appended(d[..i], d[i]);
        if d[i].Property? { cnt := cnt + 1; }
      }
      assert d[..|d|] == d;
      empty := cnt == 0;
    }

    /** getDocument: loading a document into the cache. */
    method GetDocument(r: Id)
      requires Kept()
      modifies this`documentCache, this`indexReader, this`indexWriter
      ensures Kept() && State() == Loaded(old(State()), r) && r in documentCache
      ensures old(AllAgree()) ==> AllAgree()
    {
      hide IdOf, Properties, Projection, TextAgrees, Labelled, CacheOf, CacheAgrees, DocumentsAgree, WellKept;
      if r in documentCache {
        CacheGet(documentCache, r);
        return;
      }
      var wrapper := new DocumentWrapper([IdField(r)]);
      FreshDocument(r);
      StoredIsProjection(documents, r);
      if indexPresent {
        GetIndexReader();
        var oldDoc := Stored(documents, r);
        if oldDoc.Some? { wrapper.CopyProperties(oldDoc.value); }
      } else {
        NothingOnDisk();
      }
      assert r !in CacheOf(documentCache) by { CacheHasKeys(documentCache); }
      CachePut(documentCache, r, wrapper.document);
      documentCache := documentCache[r := wrapper.document];
    }

    /** commit: the cached documents replace those on disk. */
    method Commit()
      requires Kept()
      modifies this`documents, this`documentCache, this`indexPresent, this`indexReader, this`indexWriter, this`searcher
      ensures Kept() && State() == Committed(old(State())) && documentCache == map[]
      ensures old(AllAgree()) ==> AllAgree()
    {
      hide IdOf, Properties, Projection, TextAgrees, Labelled, CacheOf, CacheAgrees, DocumentsAgree, WellKept, NonEmpty,
           Flushed;
      CacheHasKeys(documentCache);
      FlushEnds(CacheOf(documentCache));
      DeleteCached();
      AddCached();
      documentCache := map[];
      EmptyCache();
    }

    method DeleteCached()
      requires Kept()
      modifies this`documents, this`indexReader, this`indexWriter
      ensures Kept() && Projection(documents) == Projection(old(documents)) - documentCache.Keys
      ensures old(AllAgree()) ==> AllAgree()
    {
      hide IdOf, Properties, Projection, TextAgrees, Labelled, CacheOf, CacheAgrees, DocumentsAgree, WellKept;
      ghost var start := Projection(documents);
      if indexPresent {
        var pending := documentCache.Keys;
        while pending != {}
          invariant Kept() && pending <= documentCache.Keys && indexPresent
          invariant Projection(documents) == start - (documentCache.Keys - pending)
          invariant old(AllAgree()) ==> AllAgree()
        {
          var r :| r in pending;
          GetIndexReader();
          DeletedProjection(documents, r);
          DeletedAreGone(documents, r);
          documents := Deleted(documents, r);
          assert documentCache.Keys - (pending - {r}) == (documentCache.Keys - pending) + {r};
          pending := pending - {r};
        }
      } else {
        NothingOnDisk();
      }
    }

    method AddCached()
      requires Kept() && Projection(documents).Keys !! documentCache.Keys
      modifies this`documents, this`indexPresent, this`indexReader, this`indexWriter, this`searcher
      ensures Kept() && Projection(documents) == Projection(old(documents)) + Flushed(CacheOf(documentCache), {})
      ensures indexPresent == (old(indexPresent) || Flushed(CacheOf(documentCache), {}) != map[])
      ensures old(AllAgree()) ==> AllAgree()
    {
      hide IdOf, Properties, Projection, TextAgrees, Labelled, CacheOf, CacheAgrees, DocumentsAgree, WellKept, NonEmpty,
           Flushed;
      ghost var start, wasPresent, cached := Projection(documents), indexPresent, CacheOf(documentCache);
      CacheHasKeys(documentCache);
      FlushEnds(cached);
      var pending := documentCache.Keys;
      while pending != {}
        invariant Kept() && pending <= documentCache.Keys
        invariant Projection(documents) == start + Flushed(cached, pending)
        invariant indexPresent == (wasPresent || Flushed(cached, pending) != map[])
        invariant old(AllAgree()) ==> AllAgree()
      {
        var r :| r in pending;
        CacheGet(documentCache, r);
        FlushOne(cached, pending, r);
        var empty := DocEmpty(documentCache[r]);
        if !empty {
          GetIndexWriter();
          NotOnDisk(documents, r);
          PutDocument(documents, documentCache[r]);
          documents := documents + [documentCache[r]];
        }
        pending := pending - {r};
      }
    }

    // ----- Transactions -----

    method StartTransaction() returns (id: int)
      requires Valid()
      modifies this`transactionID
      ensures Valid() && State() == Begun(old(State())) && id == (if old(transactionID) == 0 then 1 else 0)
      ensures old(AllAgree()) ==> AllAgree()
    {
      id := 0;
      if transactionID == 0 { transactionID, id := 1, 1; }
    }

    method CloseTransaction(id: int) returns (ok: bool)
      requires Valid()
      modifies this
      ensures Valid() && (ok <==> id == old(transactionID) && id > 0)
      ensures State() == if ok then Ended(old(State())) else old(State())
      ensures old(AllAgree()) ==> AllAgree()
    {
      hide IdOf, Properties, Projection, TextAgrees, Labelled, CacheOf, CacheAgrees, DocumentsAgree, WellKept,
           Committed;
      ok := id == transactionID && id > 0;
      if ok {
        Commit();
        transactionID := 0;
      }
    }

    // ----- Statements -----

    // The changed document of a resource goes to the cache, and to disk at once outside transactions.
    method SaveDocument(r: Id, d: Document)
      requires Kept()
      requires IdOf(d) == Some(r)
      modifies this
      ensures Valid() && State() == Settled(Written(old(State()), r, Properties(d)))
      ensures transactionID == old(transactionID)
      ensures old(AllAgree()) && TextAgrees(d) ==> AllAgree()
    {
      hide IdOf, Properties, Projection, TextAgrees, Labelled, CacheOf, CacheAgrees, DocumentsAgree, WellKept,
           Committed;
      CachePut(documentCache, r, d);
      documentCache := documentCache[r := d];
      if transactionID == 0 { Commit(); }
    }

    /** addStatement: refused if the object has no text; committed at once outside transactions. */
    method AddStatement(r: Id, field: string, text: string, isUri: bool) returns (ok: bool)
      requires Valid()
      modifies this
      ensures Valid() && (ok <==> text != "") && State() == EntryAdded(old(State()), r, (field, text))
      ensures transactionID == old(transactionID)
      ensures !isUri && old(AllAgree()) ==> AllAgree()
    {
      hide IdOf, Properties, Projection, TextAgrees, Labelled, CacheOf, CacheAgrees, DocumentsAgree, WellKept, Settled;
      ghost var before := State();
      ok := text != "";
      if !ok { return; }
      GetDocument(r);
      CacheGet(documentCache, r);
      var wrapper := new DocumentWrapper(documentCache[r]);
      wrapper.AddProperty(field, text, isUri);
      WriteLoaded(before, r, Properties(wrapper.document));
      SaveDocument(r, wrapper.document);
    }

    /** removeStatement: without an index, or without a text, there is nothing to do. */
    method RemoveStatement(r: Id, field: string, text: string, isUri: bool)
      requires Valid()
      modifies this
      ensures Valid() && State() == EntryRemoved(old(State()), r, (field, text))
      ensures transactionID == old(transactionID)
      ensures !isUri && old(AllAgree()) ==> AllAgree()
    {
      hide IdOf, Properties, Projection, TextAgrees, Labelled, CacheOf, CacheAgrees, DocumentsAgree, WellKept, Settled;
      ghost var before := State();
      if !indexPresent || text == "" { return; }
      GetDocument(r);
      CacheGet(documentCache, r);
      var wrapper := new DocumentWrapper(documentCache[r]);
      wrapper.RemoveProperty(field, text, isUri);
      WriteLoaded(before, r, Properties(wrapper.document));
      SaveDocument(r, wrapper.document);
    }

    // A search opens a searcher; without an index it fails.
    method Search() returns (ok: bool)
      requires Valid()
      modifies this`searcher, this`indexWriter
      ensures Valid() && State() == old(State()) && ok == indexPresent
      ensures old(AllAgree()) ==> AllAgree()
    {
      ok := indexPresent;
      CloseWriter();
      if ok { GetIndexSearcher(); }
    }
  }

  lemma FreshDocument(r: Id)
    ensures var d := [IdField(r)];
            IdOf(d) == Some(r) && Properties(d) == multiset{} && TextAgrees(d)
  {
    assert [IdField(r)][..0] == [];
  }
}
