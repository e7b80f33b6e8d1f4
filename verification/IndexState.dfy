/**
 The full-text index as a value: the committed documents, the write-back cache of documents that an open
 transaction has changed, and whether there is an index at all (index/cluceneindex.cpp).
 */
module IndexStates {
  type Id = string              // what getId makes of a resource or blank node
  type Entry = (string, string) // a field, which is an encoded predicate, and a text

  // The property fields of a document.
  type Entries = multiset<Entry>

  datatype Index = Index(
    committed: map<Id, Entries>,
    cached: map<Id, Entries>,
    present: bool,
    inTransaction: bool)

  const NO_INDEX := Index(map[], map[], false, false)

  // No empty documents, nothing in an index that is not there, and no cache outside transactions.
  ghost predicate Sound(ix: Index) {
    && (forall r | r in ix.committed :: ix.committed[r] != multiset{})
    && (!ix.present ==> ix.committed == map[])
    && (!ix.inTransaction ==> ix.cached == map[])
  }

  /** What the index will hold about a resource: the cached document if there is one, else the committed one. */
  function View(ix: Index, r: Id): Entries {
    if r in ix.cached then ix.cached[r] else if r in ix.committed then ix.committed[r] else multiset{}
  }

  // getDocument: the document is copied to the cache.
  function Loaded(ix: Index, r: Id): Index {
    ix.(cached := ix.cached[r := View(ix, r)])
  }

  function NonEmpty(docs: map<Id, Entries>): set<Id> {
    set r | r in docs && docs[r] != multiset{}
  }

  function Committed(ix: Index): Index {
    ix.(committed := (ix.committed - ix.cached.Keys) + (map r | r in NonEmpty(ix.cached) :: ix.cached[r]),
        cached := map[],
        present := ix.present || NonEmpty(ix.cached) != {})
  }

  // Outside transactions every change is committed at once.
  function Settled(ix: Index): Index {
    if ix.inTransaction then ix else Committed(ix)
  }

  function Written(ix: Index, r: Id, entries: Entries): Index {
    ix.(cached := ix.cached[r := entries])
  }

  /** addStatement; an empty text is refused. */
  function EntryAdded(ix: Index, r: Id, e: Entry): Index {
    if e.1 == "" then ix else Settled(Written(ix, r, View(ix, r) + multiset{e}))
  }

  /** removeStatement; without an index there is nothing to do. */
  function EntryRemoved(ix: Index, r: Id, e: Entry): Index {
    if !ix.present || e.1 == "" then ix else Settled(Written(ix, r, View(ix, r)[e := 0]))
  }

  // ----- The cache is transparent -----

  lemma LoadKeepsViews(ix: Index, r: Id, other: Id)
    ensures View(Loaded(ix, r), other) == View(ix, other)
  {
  }

  /** Committing keeps every view, leaves no empty document, and the committed documents are then the views. */
  lemma CommitKeepsViews(ix: Index, r: Id)
    requires Sound(ix)
    ensures var ix' := Committed(ix);
            && Sound(ix') && ix'.cached == map[]
            && View(ix', r) == View(ix, r)
            && (r in ix'.committed <==> View(ix, r) != multiset{})
            && (r in ix'.committed ==> ix'.committed[r] == View(ix, r))
    ensures Committed(ix).present <==> ix.present || exists s | s in ix.cached :: View(ix, s) != multiset{}
  {
    if r in ix.cached && ix.cached[r] != multiset{} { assert r in NonEmpty(ix.cached); }
    forall s | s in Committed(ix).committed ensures Committed(ix).committed[s] != multiset{} {
      assert s in NonEmpty(ix.cached) || (s in ix.committed && s !in ix.cached);
    }
    if !Committed(ix).present { assert forall s | s in ix.cached :: s !in NonEmpty(ix.cached); }
  }

  lemma WriteChangesOneView(ix: Index, r: Id, entries: Entries, other: Id)
    requires Sound(ix)
    ensures var ix' := Settled(Written(ix, r, entries));
            && View(ix', other) == (if other == r then entries else View(ix, other))
            && Sound(ix') && ix'.inTransaction == ix.inTransaction && (ix.present ==> ix'.present)
  {
    hide Committed;
    var written := Written(ix, r, entries);
    if !ix.inTransaction {
      CommitWritten(ix, r, entries, other);
    }
  }

  // As CommitKeepsViews, for a document written outside a transaction.
  lemma CommitWritten(ix: Index, r: Id, entries: Entries, other: Id)
    requires Sound(ix) && !ix.inTransaction
    ensures var ix' := Committed(Written(ix, r, entries));
            && View(ix', other) == (if other == r then entries else View(ix, other))
            && Sound(ix') && !ix'.inTransaction && (ix.present ==> ix'.present)
  {
    CommitKeepsViews(Written(ix, r, entries).(inTransaction := true), other);
    assert Committed(Written(ix, r, entries).(inTransaction := true)) ==
           Committed(Written(ix, r, entries)).(inTransaction := true);
  }

  /** Adding inserts one entry for its subject. */
  lemma AddInsertsOne(ix: Index, r: Id, e: Entry, other: Id)
    requires Sound(ix)
    ensures var ix' := EntryAdded(ix, r, e);
            && View(ix', other) == View(ix, other) + (if other == r && e.1 != "" then multiset{e} else multiset{})
            && Sound(ix') && ix'.inTransaction == ix.inTransaction && (ix.present ==> ix'.present)
  {
    hide Settled, View;
    WriteChangesOneView(ix, r, View(ix, r) + multiset{e}, other);
  }

  /**
   Removing deletes all copies of one entry for its subject, and no other; when there is no index it takes
   effect if and only if there was nothing to remove.
   */
  lemma RemoveDeletesAllCopies(ix: Index, r: Id, e: Entry, other: Id)
    requires Sound(ix)
    ensures var ix' := EntryRemoved(ix, r, e);
            && (forall f | f != e || other != r || e.1 == "" :: View(ix', other)[f] == View(ix, other)[f])
            && (e.1 != "" ==> (View(ix', r)[e] == 0 <==> ix.present || View(ix, r)[e] == 0))
            && Sound(ix') && ix'.inTransaction == ix.inTransaction && ix'.present == ix.present
            && (!ix.present ==> ix' == ix)
  {
    hide Settled, View;
    WriteChangesOneView(ix, r, View(ix, r)[e := 0], other);
    WriteChangesOneView(ix, r, View(ix, r)[e := 0], r);
  }

  // ----- Transactions -----

  function Begun(ix: Index): Index {
    ix.(inTransaction := true)
  }

  function Ended(ix: Index): Index {
    if ix.inTransaction then Committed(ix).(inTransaction := false) else ix
  }

  /** A transaction changes no view by beginning or ending. */
  lemma TransactionsKeepViews(ix: Index, r: Id)
    requires Sound(ix)
    ensures Sound(Begun(ix)) && View(Begun(ix), r) == View(ix, r)
    ensures Sound(Ended(ix)) && View(Ended(ix), r) == View(ix, r)
    ensures Ended(ix).cached == map[] && !Ended(ix).inTransaction
    ensures ix.present ==> Ended(ix).present
  {
    hide Committed;
    CommitKeepsViews(ix, r);
    assert ix.inTransaction ==> View(Ended(ix), r) == View(Committed(ix), r);
    CommitKeepsPresence(ix);
  }

  lemma CommitKeepsPresence(ix: Index)
    ensures ix.present ==> Committed(ix).present
  {
  }
}
