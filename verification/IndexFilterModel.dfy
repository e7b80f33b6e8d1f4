/**
 IndexFilterModel (index/indexfiltermodel.cpp): the methods that keep the index beside the parent model, over a
 CLuceneIndex.  Whether the parent model carries out a change, and in which order it lists statements, is given.
 */
module IndexFilterModels {
  import opened Wrappers
  import opened IndexStates
  import opened Documents
  import opened CLuceneIndexes
  import opened IndexFilters

  // Objects without a text.
  const NAMELESS := {LiteralObject(""), ResourceObject(""), BlankObject("")}

  class IndexFilterModel {
    const index: CLuceneIndex
    var store: set<Quad>   // the parent model
    var transactionCacheSize: int
    var transactionCacheId: int
    var transactionCacheCount: int
    var indexOnlyPredicates: set<string>
    var forceIndexPredicates: set<string>

    ghost function State(): Filter
      reads this, index
    {
      Filter(store, index.State(), transactionCacheSize, transactionCacheId, transactionCacheCount,
             forceIndexPredicates, indexOnlyPredicates)
    }

    ghost predicate Valid()
      reads this, index
    {
      index.Valid() && Batched(State())
    }

    constructor (index: CLuceneIndex, store: set<Quad>)
      requires index.Valid() && index.transactionID == 0
      ensures this.index == index && Valid() && State() == Filter(store, index.State(), 1, 0, 0, {}, {})
    {
      this.index, this.store := index, store;
      transactionCacheSize, transactionCacheId, transactionCacheCount := 1, 0, 0;
      indexOnlyPredicates, forceIndexPredicates := {}, {};
      new;
      index.ValidIsSound();
    }

    method StartTransaction()
      requires index.Valid()
      modifies this`transactionCacheId, this`transactionCacheCount, index`transactionID
      ensures index.Valid() && State() == Started(old(State()))
      ensures old(index.AllAgree()) ==> index.AllAgree()
    {
      if transactionCacheSize > 1 && transactionCacheId == 0 {
        transactionCacheId := index.StartTransaction();
        transactionCacheCount := 0;
      }
      transactionCacheCount := transactionCacheCount + 1;
    }

    method CloseTransaction()
      requires index.Valid() && (transactionCacheId != 0 ==> transactionCacheId == index.transactionID)
      modifies this`transactionCacheId, this`transactionCacheCount, index
      ensures index.Valid() && State() == Finished(old(State()))
      ensures old(index.AllAgree()) ==> index.AllAgree()
    {
      if transactionCacheCount >= transactionCacheSize && transactionCacheId != 0 {
        var ok := index.CloseTransaction(transactionCacheId);
        transactionCacheCount := 0;
        transactionCacheId := 0;
      }
    }

    // The part of addStatement that concerns the index.
    method UpdateByAdding(q: Quad) returns (ok: bool)
      requires Valid()
      modifies this`transactionCacheId, this`transactionCacheCount, index
      ensures Valid() && State() == IndexAdd(old(State()), q) && (ok <==> TextOf(q.object_) != "")
      ensures !q.object_.ResourceObject? && old(index.AllAgree()) ==> index.AllAgree()
    {
      hide Sound, EntryAdded, View, Projection, CacheOf, Ended, DocumentsAgree, CacheAgrees;
      IndexAddViews(State(), q, q.subject);
      ghost var before := State();
      StartTransaction();
      StartKeepsViews(before, q.subject);
      ok := index.AddStatement(q.subject, q.predicate_, TextOf(q.object_), q.object_.ResourceObject?);
      CloseTransaction();
    }

    method UpdateByRemoving(q: Quad)
      requires Valid()
      modifies this`transactionCacheId, this`transactionCacheCount, index
      ensures Valid() && State() == IndexRemove(old(State()), q)
      ensures !q.object_.ResourceObject? && old(index.AllAgree()) ==> index.AllAgree()
    {
      hide Sound, EntryRemoved, View, Projection, CacheOf, Ended, DocumentsAgree, CacheAgrees;
      IndexRemoveViews(State(), q, q.subject);
      ghost var before := State();
      StartTransaction();
      StartKeepsViews(before, q.subject);
      index.RemoveStatement(q.subject, q.predicate_, TextOf(q.object_), q.object_.ResourceObject?);
      CloseTransaction();
    }

    /** addStatement: without an error unless the parent model fails or the object has no text. */
    method AddStatement(q: Quad, parentOk: bool) returns (ok: bool)
      requires Valid()
      modifies this, index
      ensures Valid() && State() == Happen(old(State()), Add(q, parentOk))
      ensures !q.object_.ResourceObject? && old(index.AllAgree()) ==> index.AllAgree()
      ensures store == if q.predicate_ !in indexOnlyPredicates && parentOk then old(store) + {q} else old(store)
      ensures q.predicate_ !in indexOnlyPredicates && q in old(store) ==> ok && index.State() == old(index.State())
      ensures q.predicate_ in indexOnlyPredicates || q !in old(store) ==>
                (ok <==> (q.predicate_ in indexOnlyPredicates || parentOk) &&
                         !(q.predicate_ in forceIndexPredicates && q.object_ in NAMELESS))
    {
      hide IndexAdd, View, Sound, Projection, CacheOf, DocumentsAgree, CacheAgrees;
      ok := true;
      var mustStore := q.predicate_ !in indexOnlyPredicates;
      if !mustStore || q !in store {
        if mustStore {
          ok := parentOk;
          if ok { store := store + {q}; }
        }
        if ok && Indexable(forceIndexPredicates, q) { ok := UpdateByAdding(q); }
      }
    }

    method RemoveStatement(q: Quad, parentOk: bool)
      requires Valid()
      modifies this, index
      ensures Valid() && State() == Happen(old(State()), Remove(q, parentOk))
      ensures store == if parentOk then old(store) - {q} else old(store)
      ensures !q.object_.ResourceObject? && old(index.AllAgree()) ==> index.AllAgree()
    {
      hide IndexRemove, View, Sound, Projection, CacheOf, DocumentsAgree, CacheAgrees;
      if parentOk {
        store := store - {q};
        if Indexable(forceIndexPredicates, q) { UpdateByRemoving(q); }
      }
    }

    method RemoveAllStatements(p: Pattern, listing: seq<Quad>, parentOk: bool)
      requires Valid() && Possible(State(), RemoveAll(p, listing, parentOk))
      modifies this, index
      ensures Valid() && State() == Happen(old(State()), RemoveAll(p, listing, parentOk))
      ensures forall q :: q in store <==> q in old(store) && !(parentOk && Matches(p, q))
      ensures (forall q <- listing :: !q.object_.ResourceObject?) && old(index.AllAgree()) ==> index.AllAgree()
    {
      hide IndexRemove, View, Sound, Projection, CacheOf, DocumentsAgree, CacheAgrees, Indexable;
      ghost var before := State();
      for i := 0 to |listing|
        invariant Valid() && State() == IndexRemoveListed(before, listing[..i])
        invariant (forall q <- listing :: !q.object_.ResourceObject?) && old(index.AllAgree()) ==> index.AllAgree()
        invariant store == old(store) && forceIndexPredicates == old(forceIndexPredicates)
      {
        assert listing[..i + 1][..i] == listing[..i];
        if Indexable(forceIndexPredicates, listing[i]) { UpdateByRemoving(listing[i]); }
      }
      assert listing[..|listing|] == listing;
      if parentOk { store := set q | q in store && !Matches(p, q); }
    }

    /** A Lucene query starts with everything committed, no transaction and an empty cache. */
    method ExecuteLuceneQuery() returns (ok: bool)
      requires Valid()
      modifies this, index
      ensures Valid() && State() == Happen(old(State()), LuceneQuery) && ok == index.indexPresent
      ensures index.transactionID == 0 && index.documentCache == map[]
      ensures old(index.AllAgree()) ==> index.AllAgree()
    {
      hide View, Sound, Projection, CacheOf, DocumentsAgree, CacheAgrees, Committed;
      HappenKeepsBatched(State(), LuceneQuery);
      transactionCacheCount := transactionCacheSize;
      CloseTransaction();
      ok := index.Search();
    }

    method SetTransactionCacheSize(size: int)
      requires Valid()
      modifies this, index
      ensures Valid() && State() == Happen(old(State()), Resize(size))
      ensures if size >= 1 then transactionCacheSize == size else transactionCacheSize == 1
      ensures old(index.AllAgree()) ==> index.AllAgree()
    {
      hide View, Sound, Projection, CacheOf, DocumentsAgree, CacheAgrees, Committed;
      HappenKeepsBatched(State(), Resize(size));
      transactionCacheSize := if size > 1 then size else 1;
      CloseTransaction();
    }
  }
}
