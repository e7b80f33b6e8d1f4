/**
 The model that keeps a full-text index beside a store (index/indexfiltermodel.cpp): every run of additions and
 removals keeps the index in agreement with the store, and batches index updates into bounded transactions.
 */
module IndexFilters {
  import opened Wrappers
  import opened IndexStates

  datatype Object = ResourceObject(uri: string) | BlankObject(id: string) | LiteralObject(text: string)

  datatype Quad = Quad(subject: Id, predicate_: string, object_: Object, context: string)

  datatype Pattern = Pattern(
    subject: Option<Id>,
    predicate_: Option<string>,
    object_: Option<Object>,
    context: Option<string>)

  predicate Matches(p: Pattern, q: Quad) {
    && (p.subject.None? || p.subject.value == q.subject) && (p.predicate_.None? || p.predicate_.value == q.predicate_)
    && (p.object_.None? || p.object_.value == q.object_) && (p.context.None? || p.context.value == q.context)
  }

  function TextOf(o: Object): string {
    match o case ResourceObject(uri) => uri case BlankObject(id) => id case LiteralObject(text) => text
  }

  function EntryOf(q: Quad): Entry {
    (q.predicate_, TextOf(q.object_))
  }

  // indexStatement
  predicate Indexable(force: set<string>, q: Quad) {
    (q.object_.LiteralObject? && TextOf(q.object_) != "") || q.predicate_ in force
  }

  /** The store of the parent model, the index, and the transaction counters. */
  datatype Filter = Filter(
    store: set<Quad>,
    index: Index,
    size: int,                  // transactionCacheSize
    id: int,                    // transactionCacheId
    count: int,                 // transactionCacheCount
    force: set<string>,         // forceIndexPredicates
    indexOnly: set<string>)     // indexOnlyPredicates

  // ----- Operations -----

  // startTransaction of the model; the index answers 0 if it has a transaction already.
  function Started(m: Filter): Filter {
    var m := if m.size > 1 && m.id == 0
             then m.(index := Begun(m.index), id := if m.index.inTransaction then 0 else 1, count := 0) else m;
    m.(count := m.count + 1)
  }

  // closeTransaction of the model
  function Finished(m: Filter): Filter {
    if m.count >= m.size && m.id != 0 then m.(index := Ended(m.index), count := 0, id := 0) else m
  }

  function IndexAdd(m: Filter, q: Quad): Filter {
    var m := Started(m);
    Finished(m.(index := EntryAdded(m.index, q.subject, EntryOf(q))))
  }

  function IndexRemove(m: Filter, q: Quad): Filter {
    var m := Started(m);
    Finished(m.(index := EntryRemoved(m.index, q.subject, EntryOf(q))))
  }

  /** addStatement; `ok` tells whether the parent model can add the statement. */
  function Added(m: Filter, q: Quad, ok: bool): Filter {
    var store := q.predicate_ !in m.indexOnly;
    if store && q in m.store then m
    else
      var m := if store && ok then m.(store := m.store + {q}) else m;
      if (!store || ok) && Indexable(m.force, q) then IndexAdd(m, q) else m
  }

  function RemovedOne(m: Filter, q: Quad, ok: bool): Filter {
    if !ok then m
    else
      var m := m.(store := m.store - {q});
      if Indexable(m.force, q) then IndexRemove(m, q) else m
  }

  function IndexRemoveListed(m: Filter, listing: seq<Quad>): Filter {
    if listing == [] then m
    else
      var m, q := IndexRemoveListed(m, listing[..|listing| - 1]), listing[|listing| - 1];
      if Indexable(m.force, q) then IndexRemove(m, q) else m
  }

  function RemovedAll(m: Filter, p: Pattern, listing: seq<Quad>, ok: bool): Filter {
    var m := IndexRemoveListed(m, listing);
    if ok then m.(store := set q | q in m.store && !Matches(p, q)) else m
  }

  // A Lucene query commits first.
  function Queried(m: Filter): Filter {
    Finished(m.(count := m.size))
  }

  function Resized(m: Filter, n: int): Filter {
    Finished(m.(size := if n > 1 then n else 1))
  }

  datatype Event =
    | Add(quad: Quad, ok: bool)
    | Remove(quad: Quad, ok: bool)
    | RemoveAll(pattern: Pattern, listing: seq<Quad>, ok: bool)
    | LuceneQuery
    | Resize(n: int)

  // The parent model lists exactly the stored statements that match, in any order.
  ghost predicate Possible(m: Filter, e: Event) {
    e.RemoveAll? ==> forall q :: q in e.listing <==> q in m.store && Matches(e.pattern, q)
  }

  function Happen(m: Filter, e: Event): Filter {
    match e
    case Add(q, ok) => Added(m, q, ok)
    case Remove(q, ok) => RemovedOne(m, q, ok)
    case RemoveAll(p, listing, ok) => RemovedAll(m, p, listing, ok)
    case LuceneQuery => Queried(m)
    case Resize(n) => Resized(m, n)
  }

  // ----- Batching -----

  /** An open transaction has between 1 and size - 1 updates; with none open, everything is committed. */
  ghost predicate Batched(m: Filter) {
    && Sound(m.index) && m.size >= 1 && m.id in {0, 1} && (m.id == 1 <==> m.index.inTransaction)
    && (m.id == 1 ==> 1 <= m.count < m.size && |m.index.cached| <= m.count)
  }

  // What an update of one entry does, seen from outside: a new index state, and the counters.
  ghost predicate Updated(m: Filter, m': Filter) {
    && Batched(m') && (m.index.present ==> m'.index.present)
    && m' == m.(index := m'.index, id := m'.id, count := m'.count)
  }

  lemma FinishKeepsViews(m: Filter, r: Id)
    requires Sound(m.index) && m.size >= 1 && m.id in {0, 1} && (m.id == 1 <==> m.index.inTransaction)
    requires m.id == 1 ==> 1 <= m.count && |m.index.cached| <= m.count
    ensures Updated(m, Finished(m)) && View(Finished(m).index, r) == View(m.index, r)
  {
    hide Ended, View;
    TransactionsKeepViews(m.index, r);
  }

  lemma CacheGrowsByOne(ix: Index, r: Id, entries: Entries)
    ensures |Written(ix, r, entries).cached| <= |ix.cached| + 1
  {
    assert Written(ix, r, entries).cached.Keys == ix.cached.Keys + {r};
    assert |Written(ix, r, entries).cached| == |ix.cached.Keys + {r}| && |ix.cached| == |ix.cached.Keys|;
    if r in ix.cached { assert ix.cached.Keys + {r} == ix.cached.Keys; }
  }

  lemma StartKeepsViews(m: Filter, r: Id)
    requires Batched(m)
    ensures var s := Started(m);
            && Sound(s.index) && s.id in {0, 1} && (s.id == 1 <==> s.index.inTransaction)
            && (s.id == 1 ==> 1 <= s.count <= s.size && |s.index.cached| <= s.count - 1)
            && s == m.(index := s.index, id := s.id, count := s.count)
            && View(s.index, r) == View(m.index, r) && s.index.present == m.index.present
  {
  }

  lemma IndexAddViews(m: Filter, q: Quad, r: Id)
    requires Batched(m)
    ensures Updated(m, IndexAdd(m, q))
    ensures View(IndexAdd(m, q).index, r) ==
            View(m.index, r) + if r == q.subject && TextOf(q.object_) != "" then multiset{EntryOf(q)} else multiset{}
  {
    hide View, Committed, Begun, Finished;
    var s := Started(m);
    StartKeepsViews(m, r);
    AddInsertsOne(s.index, q.subject, EntryOf(q), r);
    CacheGrowsByOne(s.index, q.subject, View(s.index, q.subject) + multiset{EntryOf(q)});
    FinishKeepsViews(s.(index := EntryAdded(s.index, q.subject, EntryOf(q))), r);
  }

  lemma IndexRemoveViews(m: Filter, q: Quad, r: Id)
    requires Batched(m)
    ensures Updated(m, IndexRemove(m, q))
    ensures forall e | e != EntryOf(q) || r != q.subject || TextOf(q.object_) == "" ::
              View(IndexRemove(m, q).index, r)[e] == View(m.index, r)[e]
    ensures TextOf(q.object_) != "" ==>
              (View(IndexRemove(m, q).index, q.subject)[EntryOf(q)] == 0 <==>
               m.index.present || View(m.index, q.subject)[EntryOf(q)] == 0)
    ensures !m.index.present ==> View(IndexRemove(m, q).index, r) == View(m.index, r)
  {
    hide View, Committed, Begun, Finished;
    var s := Started(m);
    var e := EntryOf(q);
    StartKeepsViews(m, r);
    StartKeepsViews(m, q.subject);
    RemoveDeletesAllCopies(s.index, q.subject, e, r);
    CacheGrowsByOne(s.index, q.subject, View(s.index, q.subject)[e := 0]);
    FinishKeepsViews(s.(index := EntryRemoved(s.index, q.subject, e)), r);
    FinishKeepsViews(s.(index := EntryRemoved(s.index, q.subject, e)), q.subject);
  }

  /** The index forgets a removed statement if and only if there is an index, or it knew nothing of it. */
  lemma RemoveTakesEffect(m: Filter, q: Quad)
    requires Batched(m) && Indexable(m.force, q) && TextOf(q.object_) != ""
    ensures View(RemovedOne(m, q, true).index, q.subject)[EntryOf(q)] == 0 <==>
            m.index.present || View(m.index, q.subject)[EntryOf(q)] == 0
  {
    hide View, IndexRemove;
    IndexRemoveViews(m.(store := m.store - {q}), q, q.subject);
  }

  // ----- Removing what a pattern matches -----

  // Removals take effect: there is an index, or nothing is indexed.
  ghost predicate Effective(m: Filter) {
    m.index.present || forall r :: View(m.index, r) == multiset{}
  }

  // A listed statement whose entry this is.
  predicate Hits(force: set<string>, q: Quad, r: Id, e: Entry) {
    Indexable(force, q) && q.subject == r && EntryOf(q) == e && e.1 != ""
  }

  ghost predicate HitByAny(force: set<string>, listing: seq<Quad>, r: Id, e: Entry) {
    exists q <- listing :: Hits(force, q, r, e)
  }

  lemma IndexRemoveEntry(m: Filter, q: Quad, r: Id, e: Entry)
    requires Batched(m) && Effective(m)
    ensures var m' := if Indexable(m.force, q) then IndexRemove(m, q) else m;
            && Updated(m, m')
            && View(m'.index, r)[e] == if Hits(m.force, q, r, e) then 0 else View(m.index, r)[e]
  {
    hide View, IndexRemove;
    IndexRemoveViews(m, q, r);
  }

  lemma EffectiveByEntries(m: Filter)
    requires forall r, e :: View(m.index, r)[e] == 0
    ensures forall r :: View(m.index, r) == multiset{}
  {
    hide View;
  }

  // The removals that are still lost: those before the first transaction on a missing index is committed.
  function Unheard(m: Filter): int {
    if m.index.present || m.id == 0 then 0 else m.size - m.count
  }

  function IndexableIn(force: set<string>, listing: seq<Quad>): nat {
    if listing == [] then 0
    else IndexableIn(force, listing[..|listing| - 1]) + if Indexable(force, listing[|listing| - 1]) then 1 else 0
  }

  /** The indexable statements of a listing after the first n of them. */
  function Heard(force: set<string>, listing: seq<Quad>, n: int): seq<Quad> {
    if listing == [] then []
    else
      var front, q := listing[..|listing| - 1], listing[|listing| - 1];
      Heard(force, front, n) + if Indexable(force, q) && IndexableIn(force, front) >= n then [q] else []
  }

  lemma HitByMore(force: set<string>, listing: seq<Quad>, q: Quad, r: Id, e: Entry)
    ensures HitByAny(force, listing + [q], r, e) <==> HitByAny(force, listing, r, e) || Hits(force, q, r, e)
  {
    hide Indexable;
    if HitByAny(force, listing, r, e) {
      var h :| h in listing && Hits(force, h, r, e);
      assert h in listing + [q];
    }
    assert q in listing + [q];
  }

  // A removal that is lost, and the commit that the last lost one brings.
  lemma UnheardRemoval(m: Filter, q: Quad, r: Id)
    requires Batched(m) && Unheard(m) > 0
    ensures var m' := IndexRemove(m, q);
            && View(m'.index, r) == View(m.index, r)
            && (if Unheard(m) == 1 then m'.index == Ended(m.index) && m'.id == 0
                else m'.index == m.index && m'.id == 1 && m'.count == m.count + 1 && Unheard(m') == Unheard(m) - 1)
  {
    hide View, Ended;
    IndexRemoveViews(m, q, r);
    RemoveDeletesAllCopies(m.index, q.subject, EntryOf(q), r);
  }

  // After that commit there is an index, or everything in the cache was empty.
  lemma CommitIsEffective(m: Filter, m': Filter)
    requires Sound(m.index) && !m.index.present && m'.index == Ended(m.index) && m.index.inTransaction
    ensures Effective(m')
  {
    if !m'.index.present {
      forall r: Id ensures View(m'.index, r) == multiset{} {
        assert r in m.index.cached ==> r !in NonEmpty(m.index.cached);
      }
    }
  }

  lemma EffectiveRemoval(m: Filter, q: Quad)
    requires Batched(m) && Effective(m)
    ensures Effective(IndexRemove(m, q))
  {
    hide View, IndexRemove, Indexable;
    var m' := IndexRemove(m, q);
    IndexRemoveViews(m, q, q.subject);
    if !m.index.present {
      forall r: Id, e: Entry ensures View(m'.index, r)[e] == 0 { IndexRemoveViews(m, q, r); }
      EffectiveByEntries(m');
    }
  }

  /**
   What removing the listed statements does to the index: as long as the first transaction on a missing index is
   open nothing, and from the commit that this itself brings about on, it deletes exactly their entries.
   */
  lemma {:induction false} ListedEntries(m: Filter, listing: seq<Quad>, r: Id, e: Entry)
    requires Batched(m)
    ensures var m' := IndexRemoveListed(m, listing);
            var c := IndexableIn(m.force, listing);
            && Updated(m, m')
            && (if c < Unheard(m) then Unheard(m') == Unheard(m) - c else Effective(m'))
            && View(m'.index, r)[e] ==
               if HitByAny(m.force, Heard(m.force, listing, Unheard(m)), r, e) then 0 else View(m.index, r)[e]
    decreases |listing|
  {
    hide View, IndexRemove, Indexable, Sound, Unheard, Effective, HitByAny;
    assert Unheard(m) >= 0 && (Unheard(m) == 0 ==> Effective(m)) by { UnheardIsZeroIfEffective(m); }
    if listing == [] {
      assert !HitByAny(m.force, [], r, e) by { NothingHits(m.force, r, e); }
    } else {
      var front, q, n := listing[..|listing| - 1], listing[|listing| - 1], Unheard(m);
      var before, after := IndexRemoveListed(m, front), IndexRemoveListed(m, listing);
      var heard := Heard(m.force, front, n);
      ListedEntries(m, front, r, e);
      if !Indexable(m.force, q) {
        assert Heard(m.force, listing, n) == heard;
      } else if IndexableIn(m.force, front) < n {
        assert Heard(m.force, listing, n) == heard;
        UnheardRemoval(before, q, r);
        UnheardIsOpen(before);
        IndexRemoveViews(before, q, r);
        if Unheard(before) == 1 { CommitIsEffective(before, after); }
      } else {
        HitByMore(m.force, heard, q, r, e);
        IndexRemoveEntry(before, q, r, e);
        EffectiveRemoval(before, q);
      }
    }
  }

  lemma UnheardIsZeroIfEffective(m: Filter)
    requires Batched(m)
    ensures Unheard(m) >= 0 && (Unheard(m) == 0 ==> Effective(m))
  {
  }

  lemma UnheardIsOpen(m: Filter)
    requires Batched(m) && Unheard(m) > 0
    ensures !m.index.present && m.index.inTransaction && Sound(m.index)
  {
  }

  lemma NothingHits(force: set<string>, r: Id, e: Entry)
    ensures !HitByAny(force, [], r, e)
  {
  }

  // With nothing lost, every indexable statement is heard.
  lemma {:induction false} AllHeard(force: set<string>, listing: seq<Quad>, r: Id, e: Entry)
    ensures HitByAny(force, Heard(force, listing, 0), r, e) <==> HitByAny(force, listing, r, e)
    decreases |listing|
  {
    hide HitByAny, Indexable;
    if listing == [] {
    } else {
      var front, q := listing[..|listing| - 1], listing[|listing| - 1];
      AllHeard(force, front, r, e);
      HitByMore(force, front, q, r, e);
      HitByMore(force, Heard(force, front, 0), q, r, e);
      assert listing == front + [q];
      if !Indexable(force, q) { assert Heard(force, listing, 0) == Heard(force, front, 0); }
    }
  }

  lemma {:induction false} ListedIsBatched(m: Filter, listing: seq<Quad>)
    requires Batched(m)
    ensures Updated(m, IndexRemoveListed(m, listing))
    decreases |listing|
  {
    hide View, IndexRemove, Indexable, Sound;
    if listing != [] {
      var front, q := listing[..|listing| - 1], listing[|listing| - 1];
      ListedIsBatched(m, front);
      IndexRemoveViews(IndexRemoveListed(m, front), q, q.subject);
    }
  }

  /** Fewer than size updates are ever uncommitted, and a Lucene query starts with an empty cache. */
  lemma HappenKeepsBatched(m: Filter, e: Event)
    requires Batched(m)
    ensures Batched(Happen(m, e))
    ensures e.LuceneQuery? ==> !Happen(m, e).index.inTransaction && Happen(m, e).index.cached == map[]
    ensures m.index.present ==> Happen(m, e).index.present
  {
    hide View, IndexAdd, IndexRemove, Indexable, Committed;
    match e {
      case Add(q, ok) => IndexAddViews(m.(store := m.store + {q}), q, q.subject); IndexAddViews(m, q, q.subject);
      case Remove(q, ok) => IndexRemoveViews(m.(store := m.store - {q}), q, q.subject);
      case RemoveAll(_, listing, _) => ListedIsBatched(m, listing);
      case LuceneQuery => TransactionsKeepViews(m.index, "");
      case Resize(n) => TransactionsKeepViews(m.index, "");
    }
  }

  // ----- Agreement of index and store -----

  // No removal while the first transaction on an index that is not there yet is open.
  predicate Careful(m: Filter, e: Event) {
    e.Remove? || e.RemoveAll? ==> m.index.present || m.id == 0
  }

  predicate Reaches(m: Filter, q: Quad, ok: bool) {
    q.predicate_ in m.indexOnly || (q !in m.store && ok)
  }

  // How often an entry is indexed after an event.
  ghost function Copies(m: Filter, e: Event, r: Id, entry: Entry): int {
    var n := View(m.index, r)[entry];
    match e
    case Add(q, ok) => if Reaches(m, q, ok) && Hits(m.force, q, r, entry) then n + 1 else n
    case Remove(q, ok) => if ok && Unheard(m) == 0 && Hits(m.force, q, r, entry) then 0 else n
    case RemoveAll(_, listing, _) =>
      if HitByAny(m.force, Heard(m.force, listing, Unheard(m)), r, entry) then 0 else n
    case LuceneQuery => n
    case Resize(_) => n
  }

  /** What every event does to every entry, with no condition on the event. */
  lemma HappenCopies(m: Filter, e: Event, r: Id, entry: Entry)
    requires Batched(m)
    ensures View(Happen(m, e).index, r)[entry] == Copies(m, e, r, entry)
  {
    hide View, IndexAdd, IndexRemove, Committed, Sound, Heard, HitByAny;
    match e {
      case Add(q, ok) => IndexAddViews(m.(store := m.store + {q}), q, r); IndexAddViews(m, q, r);
      case Remove(q, ok) => RemoveCopies(m, q, ok, r, entry);
      case RemoveAll(_, listing, _) => ListedEntries(m, listing, r, entry);
      case LuceneQuery => QueryKeepsViews(m, r);
      case Resize(n) => ResizeKeepsViews(m, n, r);
    }
  }

  lemma RemoveCopies(m: Filter, q: Quad, ok: bool, r: Id, entry: Entry)
    requires Batched(m)
    ensures View(RemovedOne(m, q, ok).index, r)[entry] == Copies(m, Remove(q, ok), r, entry)
  {
    hide View, IndexRemove, Sound, Indexable;
    var m' := m.(store := m.store - {q});
    UnheardIsZeroIfEffective(m');
    if Unheard(m') == 0 {
      IndexRemoveEntry(m', q, r, entry);
    } else {
      UnheardRemoval(m', q, r);
    }
  }

  lemma QueryKeepsViews(m: Filter, r: Id)
    requires Batched(m)
    ensures View(Queried(m).index, r) == View(m.index, r)
  {
    hide Committed, View;
    TransactionsKeepViews(m.index, r);
  }

  lemma ResizeKeepsViews(m: Filter, n: int, r: Id)
    requires Batched(m)
    ensures View(Resized(m, n).index, r) == View(m.index, r)
  {
    hide Committed, View;
    TransactionsKeepViews(m.index, r);
  }

  function Store(m: Filter, e: Event): set<Quad> {
    match e
    case Add(q, ok) => if q.predicate_ !in m.indexOnly && ok then m.store + {q} else m.store
    case Remove(q, ok) => if ok then m.store - {q} else m.store
    case RemoveAll(p, _, ok) => if ok then set q | q in m.store && !Matches(p, q) else m.store
    case LuceneQuery => m.store
    case Resize(_) => m.store
  }

  lemma HappenStore(m: Filter, e: Event)
    ensures Happen(m, e).store == Store(m, e)
    ensures Happen(m, e).force == m.force && Happen(m, e).indexOnly == m.indexOnly
  {
    hide EntryAdded, EntryRemoved, Ended, Begun, Indexable;
    if e.RemoveAll? { ListedKeepsStore(m, e.listing); }
  }

  lemma {:induction false} ListedKeepsStore(m: Filter, listing: seq<Quad>)
    ensures var m' := IndexRemoveListed(m, listing);
            m'.store == m.store && m'.force == m.force && m'.indexOnly == m.indexOnly
    decreases |listing|
  {
    hide EntryAdded, EntryRemoved, Ended, Begun, Indexable;
    if listing != [] { ListedKeepsStore(m, listing[..|listing| - 1]); }
  }

  // A stored, indexable statement with this entry.
  ghost predicate Backs(store: set<Quad>, force: set<string>, r: Id, entry: Entry) {
    exists q <- store :: Hits(force, q, r, entry)
  }

  /** Everything indexed under a predicate that is not index-only comes from a stored, indexable statement. */
  ghost predicate Backed(m: Filter) {
    forall r: Id, entry: Entry | View(m.index, r)[entry] > 0 && entry.0 !in m.indexOnly ::
      Backs(m.store, m.force, r, entry)
  }

  /** The index is exactly the projection of the stored, indexable statements. */
  ghost predicate Exact(m: Filter) {
    forall r: Id, entry: Entry | entry.0 !in m.indexOnly ::
      View(m.index, r)[entry] == if Backs(m.store, m.force, r, entry) then 1 else 0
  }

  lemma HappenKeepsBacked(m: Filter, e: Event)
    requires Batched(m) && Possible(m, e) && Careful(m, e) && Backed(m)
    ensures Backed(Happen(m, e))
  {
    hide Happen, View, Indexable, Batched, Sound;
    var m' := Happen(m, e);
    HappenStore(m, e);
    forall r: Id, entry: Entry | View(m'.index, r)[entry] > 0 && entry.0 !in m.indexOnly
      ensures Backs(m'.store, m.force, r, entry)
    {
      HappenCopies(m, e, r, entry);
      if e.RemoveAll? { AllHeard(m.force, e.listing, r, entry); }
      if e.Add? && Reaches(m, e.quad, e.ok) && Hits(m.force, e.quad, r, entry) {
        assert e.quad in m'.store;
      } else {
        var q :| q in m.store && Hits(m.force, q, r, entry);
        assert q in m'.store;
      }
    }
  }

  // Two indexable statements among these that project to the same entry are the same.
  ghost predicate Injective(force: set<string>, mentioned: set<Quad>) {
    forall q, q' | q in mentioned && q' in mentioned && Indexable(force, q) && Indexable(force, q') &&
                   q.subject == q'.subject && EntryOf(q) == EntryOf(q') :: q == q'
  }

  ghost predicate Mentions(mentioned: set<Quad>, m: Filter, e: Event) {
    m.store <= mentioned && (e.Add? || e.Remove? ==> e.quad in mentioned)
  }

  // The parent model carries out a removal by pattern, or nothing that is listed is in the index.
  predicate Harmless(force: set<string>, indexOnly: set<string>, e: Event) {
    e.RemoveAll? && !e.ok ==>
      forall q <- e.listing :: !(Indexable(force, q) && TextOf(q.object_) != "" && q.predicate_ !in indexOnly)
  }

  /** An event keeps the index exact if and only if it is no pattern removal that fails after the index was changed. */
  lemma HappenKeepsExact(m: Filter, e: Event, mentioned: set<Quad>)
    requires Batched(m) && Possible(m, e) && Careful(m, e) && Exact(m)
    requires Mentions(mentioned, m, e) && Injective(m.force, mentioned)
    ensures Exact(Happen(m, e)) <==> Harmless(m.force, m.indexOnly, e)
    ensures Happen(m, e).store <= mentioned
  {
    hide Happen, View, Indexable, Batched, Sound, Heard;
    HappenStore(m, e);
    if Harmless(m.force, m.indexOnly, e) {
      HarmlessKeepsExact(m, e, mentioned);
    } else {
      var q :| q in e.listing && Indexable(m.force, q) && TextOf(q.object_) != "" && q.predicate_ !in m.indexOnly;
      var r, entry := q.subject, EntryOf(q);
      HappenCopies(m, e, r, entry);
      AllHeard(m.force, e.listing, r, entry);
      assert Hits(m.force, q, r, entry);
      assert Backs(m.store, m.force, r, entry);
    }
  }

  lemma HarmlessKeepsExact(m: Filter, e: Event, mentioned: set<Quad>)
    requires Batched(m) && Possible(m, e) && Careful(m, e) && Harmless(m.force, m.indexOnly, e) && Exact(m)
    requires Mentions(mentioned, m, e) && Injective(m.force, mentioned)
    ensures Exact(Happen(m, e))
  {
    hide Happen, View, Indexable, Batched, Sound, Heard;
    var m' := Happen(m, e);
    HappenStore(m, e);
    forall r: Id, entry: Entry | entry.0 !in m.indexOnly
      ensures View(m'.index, r)[entry] == if Backs(m'.store, m.force, r, entry) then 1 else 0
    {
      HappenCopies(m, e, r, entry);
      assert View(m.index, r)[entry] == if Backs(m.store, m.force, r, entry) then 1 else 0;
      match e {
        case Add(q, ok) => AddBacks(m, q, ok, r, entry, mentioned);
        case Remove(q, ok) => RemoveBacks(m, q, ok, r, entry, mentioned);
        case RemoveAll(_, listing, ok) =>
          AllHeard(m.force, listing, r, entry);
          if ok {
            RemoveAllBacks(m, e, r, entry, mentioned);
          } else if HitByAny(m.force, listing, r, entry) {
            HarmlessHitsNothing(m, e, r, entry);
          }
        case LuceneQuery =>
        case Resize(_) =>
      }
    }
  }

  lemma HarmlessHitsNothing(m: Filter, e: Event, r: Id, entry: Entry)
    requires e.RemoveAll? && !e.ok && Harmless(m.force, m.indexOnly, e) && entry.0 !in m.indexOnly
    ensures !HitByAny(m.force, e.listing, r, entry)
  {
  }

  lemma AddBacks(m: Filter, q: Quad, ok: bool, r: Id, entry: Entry, mentioned: set<Quad>)
    requires Mentions(mentioned, m, Add(q, ok)) && Injective(m.force, mentioned) && entry.0 !in m.indexOnly
    ensures var store' := Store(m, Add(q, ok));
            if Reaches(m, q, ok) && Hits(m.force, q, r, entry)
            then !Backs(m.store, m.force, r, entry) && Backs(store', m.force, r, entry)
            else Backs(store', m.force, r, entry) == Backs(m.store, m.force, r, entry)
  {
    hide Indexable;
    var store' := Store(m, Add(q, ok));
    if Reaches(m, q, ok) && Hits(m.force, q, r, entry) {
      assert q in store';
    } else if Backs(m.store, m.force, r, entry) {
      var h :| h in m.store && Hits(m.force, h, r, entry);
      assert h in store';
    }
  }

  lemma RemoveBacks(m: Filter, q: Quad, ok: bool, r: Id, entry: Entry, mentioned: set<Quad>)
    requires Mentions(mentioned, m, Remove(q, ok)) && Injective(m.force, mentioned)
    ensures Backs(Store(m, Remove(q, ok)), m.force, r, entry) <==>
            Backs(m.store, m.force, r, entry) && !(ok && Hits(m.force, q, r, entry))
  {
    hide Indexable;
    if Backs(m.store, m.force, r, entry) && !(ok && Hits(m.force, q, r, entry)) {
      var h :| h in m.store && Hits(m.force, h, r, entry);
      assert h in Store(m, Remove(q, ok));
    }
  }

  lemma RemoveAllBacks(m: Filter, e: Event, r: Id, entry: Entry, mentioned: set<Quad>)
    requires e.RemoveAll? && e.ok && Possible(m, e) && Mentions(mentioned, m, e) && Injective(m.force, mentioned)
    ensures Backs(Store(m, e), m.force, r, entry) <==>
            Backs(m.store, m.force, r, entry) && !HitByAny(m.force, e.listing, r, entry)
  {
    hide Indexable;
    if Backs(m.store, m.force, r, entry) && !HitByAny(m.force, e.listing, r, entry) {
      var h :| h in m.store && Hits(m.force, h, r, entry);
      assert h !in e.listing;
      assert h in Store(m, e);
    }
  }

  // ----- Whole runs -----

  ghost predicate Ran(m: Filter, events: seq<Event>, m': Filter)
    decreases |events|
  {
    if events == [] then m' == m
    else Possible(m, events[0]) && Ran(Happen(m, events[0]), events[1..], m')
  }

  ghost predicate CarefulRun(m: Filter, events: seq<Event>)
    decreases |events|
  {
    events == [] || (Careful(m, events[0]) && CarefulRun(Happen(m, events[0]), events[1..]))
  }

  /** A run is careful if the index is there from the start. */
  lemma {:induction false} PresentIsCareful(m: Filter, events: seq<Event>)
    requires Batched(m) && m.index.present
    ensures CarefulRun(m, events)
    decreases |events|
  {
    hide Batched, Happen;
    if events != [] {
      HappenKeepsBatched(m, events[0]);
      PresentIsCareful(Happen(m, events[0]), events[1..]);
    }
  }

  /** A run is careful if it never batches updates. */
  lemma {:induction false} UnbatchedIsCareful(m: Filter, events: seq<Event>)
    requires Batched(m) && m.size == 1
    requires forall i | 0 <= i < |events| && events[i].Resize? :: events[i].n <= 1
    ensures CarefulRun(m, events)
    decreases |events|
  {
    if events != [] {
      HappenKeepsBatched(m, events[0]);
      HappenKeepsSize(m, events[0]);
      UnbatchedIsCareful(Happen(m, events[0]), events[1..]);
    }
  }

  lemma HappenKeepsSize(m: Filter, e: Event)
    ensures Happen(m, e).size == if e.Resize? then (if e.n > 1 then e.n else 1) else m.size
  {
    hide EntryAdded, EntryRemoved, Ended, Begun, Indexable;
    if e.RemoveAll? { ListedKeepsSize(m, e.listing); }
  }

  lemma {:induction false} ListedKeepsSize(m: Filter, listing: seq<Quad>)
    ensures IndexRemoveListed(m, listing).size == m.size
    decreases |listing|
  {
    hide EntryAdded, EntryRemoved, Ended, Begun, Indexable;
    if listing != [] { ListedKeepsSize(m, listing[..|listing| - 1]); }
  }

  /** Over every run: batches stay bounded and the index holds nothing that the store does not back. */
  lemma {:induction false} IndexStaysBacked(m: Filter, events: seq<Event>, m': Filter)
    requires Ran(m, events, m') && CarefulRun(m, events) && Batched(m) && Backed(m)
    ensures Batched(m') && Backed(m')
    decreases |events|
  {
    hide Batched, Backed, Happen, Possible, Careful;
    if events != [] {
      HappenKeepsBatched(m, events[0]);
      HappenKeepsBacked(m, events[0]);
      IndexStaysBacked(Happen(m, events[0]), events[1..], m');
    }
  }

  lemma {:induction false} BatchesStayBounded(m: Filter, events: seq<Event>, m': Filter)
    requires Ran(m, events, m') && Batched(m)
    ensures Batched(m')
    decreases |events|
  {
    hide Batched, Happen, Possible;
    if events != [] {
      HappenKeepsBatched(m, events[0]);
      BatchesStayBounded(Happen(m, events[0]), events[1..], m');
    }
  }

  predicate MentionedBy(mentioned: set<Quad>, events: seq<Event>) {
    forall i | 0 <= i < |events| && (events[i].Add? || events[i].Remove?) :: events[i].quad in mentioned
  }

  /**
   If no two statements of a run share an entry, and no pattern removal fails after it has changed the index, the
   index is exactly the projection of the store.
   */
  lemma {:induction false} IndexStaysExact(m: Filter, events: seq<Event>, m': Filter, mentioned: set<Quad>)
    requires Ran(m, events, m') && CarefulRun(m, events) && Batched(m) && Exact(m)
    requires m.store <= mentioned && MentionedBy(mentioned, events) && Injective(m.force, mentioned)
    requires forall i | 0 <= i < |events| :: Harmless(m.force, m.indexOnly, events[i])
    ensures Batched(m') && Exact(m')
    decreases |events|
  {
    hide Batched, Exact, Happen, Possible, Careful, Injective, Harmless;
    if events != [] {
      HappenKeepsBatched(m, events[0]);
      HappenKeepsExact(m, events[0], mentioned);
      HappenStore(m, events[0]);
      IndexStaysExact(Happen(m, events[0]), events[1..], m', mentioned);
    }
  }

  // ----- What is indexed, in terms of the statements alone -----

  // The statement has this subject and predicate, and an object that is indexed with this text, if it has any.
  predicate Carries(force: set<string>, q: Quad, r: Id, p: string, text: string) {
    && q.subject == r && q.predicate_ == p
    && (q.object_ == LiteralObject(text) ||
        (p in force && (q.object_ == ResourceObject(text) || q.object_ == BlankObject(text))))
  }

  // A literal with this text is stored with this subject and predicate.
  ghost predicate LiteralStored(store: set<Quad>, r: Id, p: string, text: string) {
    exists g :: Quad(r, p, LiteralObject(text), g) in store
  }

  // A resource or blank node of this name is stored with this subject and predicate.
  ghost predicate NodeStored(store: set<Quad>, r: Id, p: string, text: string) {
    exists g :: Quad(r, p, ResourceObject(text), g) in store || Quad(r, p, BlankObject(text), g) in store
  }

  lemma HitsCarries(force: set<string>, q: Quad, r: Id, p: string, text: string)
    ensures Hits(force, q, r, (p, text)) <==> text != "" && Carries(force, q, r, p, text)
  {
  }

  /** A literal with a text is indexed; a resource or blank node only under a forced predicate. */
  lemma BacksByKind(store: set<Quad>, force: set<string>, r: Id, p: string, text: string)
    ensures Backs(store, force, r, (p, text)) <==>
              text != "" && (LiteralStored(store, r, p, text) || (p in force && NodeStored(store, r, p, text)))
  {
    hide Hits;
    forall q ensures Hits(force, q, r, (p, text)) <==> text != "" && Carries(force, q, r, p, text) {
      HitsCarries(force, q, r, p, text);
    }
    if Backs(store, force, r, (p, text)) {
      var q :| q in store && Hits(force, q, r, (p, text));
      assert q == Quad(r, p, q.object_, q.context);
    }
    if text != "" && LiteralStored(store, r, p, text) {
      var g :| Quad(r, p, LiteralObject(text), g) in store;
      assert Hits(force, Quad(r, p, LiteralObject(text), g), r, (p, text));
    }
    if text != "" && p in force && NodeStored(store, r, p, text) {
      var g :| Quad(r, p, ResourceObject(text), g) in store || Quad(r, p, BlankObject(text), g) in store;
      assert Hits(force, Quad(r, p, ResourceObject(text), g), r, (p, text));
      assert Hits(force, Quad(r, p, BlankObject(text), g), r, (p, text));
    }
  }

  // A model on a missing index, with nothing stored and no update made yet.
  predicate Fresh(m: Filter) {
    m.store == {} && m.index == NO_INDEX && m.size >= 1 && m.id == 0 && m.count == 0
  }

  lemma FreshIsExact(m: Filter)
    requires Fresh(m)
    ensures Batched(m) && Backed(m) && Exact(m)
  {
    hide View, Indexable;
    NothingIsIndexed();
  }

  lemma {:induction false} RunKeepsSettings(m: Filter, events: seq<Event>, m': Filter)
    requires Ran(m, events, m')
    ensures m'.force == m.force && m'.indexOnly == m.indexOnly
    decreases |events|
  {
    hide Happen, Possible;
    if events != [] {
      HappenStore(m, events[0]);
      RunKeepsSettings(Happen(m, events[0]), events[1..], m');
    }
  }

  /**
   Over every careful run from a fresh model: what is indexed under a predicate that is not index-only has a text,
   and a stored literal has that text; or the predicate is forced, and a stored resource or blank node has that name.
   */
  lemma OnlyStoredTextsAreIndexed(m: Filter, events: seq<Event>, m': Filter, r: Id, p: string, text: string)
    requires Fresh(m) && Ran(m, events, m') && CarefulRun(m, events)
    requires p !in m.indexOnly && View(m'.index, r)[(p, text)] > 0
    ensures text != "" && (LiteralStored(m'.store, r, p, text) || (p in m.force && NodeStored(m'.store, r, p, text)))
  {
    hide View, Batched, Ran, CarefulRun, Backs, LiteralStored, NodeStored;
    FreshIsExact(m);
    IndexStaysBacked(m, events, m');
    RunKeepsSettings(m, events, m');
    var entry: Entry := (p, text);
    assert Backs(m'.store, m.force, r, entry);
    BacksByKind(m'.store, m.force, r, p, text);
  }

  // No two of these statements are indexed alike.
  ghost predicate Distinguished(force: set<string>, mentioned: set<Quad>) {
    forall q, q', r, p, text | q in mentioned && q' in mentioned &&
                               Carries(force, q, r, p, text) && Carries(force, q', r, p, text) :: q == q'
  }

  // A removal by pattern that the parent model refuses lists nothing that is indexed.
  ghost predicate RefusesNothingIndexed(force: set<string>, indexOnly: set<string>, e: Event) {
    e.RemoveAll? && !e.ok ==>
      forall q, r, p, text | q in e.listing && Carries(force, q, r, p, text) :: text == "" || p in indexOnly
  }

  lemma DistinguishedIsInjective(force: set<string>, mentioned: set<Quad>)
    requires Distinguished(force, mentioned)
    ensures Injective(force, mentioned)
  {
    forall q, q' | q in mentioned && q' in mentioned && Indexable(force, q) && Indexable(force, q') &&
                   q.subject == q'.subject && EntryOf(q) == EntryOf(q')
      ensures q == q'
    {
      assert Carries(force, q, q.subject, q.predicate_, TextOf(q.object_));
      assert Carries(force, q', q.subject, q.predicate_, TextOf(q.object_));
    }
  }

  lemma RefusesNothingIsHarmless(force: set<string>, indexOnly: set<string>, e: Event)
    requires RefusesNothingIndexed(force, indexOnly, e)
    ensures Harmless(force, indexOnly, e)
  {
    if e.RemoveAll? && !e.ok {
      forall q <- e.listing ensures !(Indexable(force, q) && TextOf(q.object_) != "" && q.predicate_ !in indexOnly) {
        if Indexable(force, q) { assert Carries(force, q, q.subject, q.predicate_, TextOf(q.object_)); }
      }
    }
  }

  /**
   If moreover no two statements are indexed alike and no refused removal touches the index, everything stored is
   indexed that should be, and once: the literals with a text, and the other objects of forced predicates.
   */
  lemma ExactlyStoredTextsAreIndexed(m: Filter, events: seq<Event>, m': Filter, mentioned: set<Quad>,
                                     r: Id, p: string, text: string)
    requires Fresh(m) && Ran(m, events, m') && CarefulRun(m, events)
    requires MentionedBy(mentioned, events) && Distinguished(m.force, mentioned)
    requires forall i | 0 <= i < |events| :: RefusesNothingIndexed(m.force, m.indexOnly, events[i])
    requires p !in m.indexOnly
    ensures View(m'.index, r)[(p, text)] ==
            if text != "" && (LiteralStored(m'.store, r, p, text) || (p in m.force && NodeStored(m'.store, r, p, text)))
            then 1 else 0
  {
    hide View, Batched, Backs, LiteralStored, NodeStored, Indexable, Ran, CarefulRun, Injective, Distinguished,
         RefusesNothingIndexed, Harmless;
    FreshIsExact(m);
    DistinguishedIsInjective(m.force, mentioned);
    forall i | 0 <= i < |events| ensures Harmless(m.force, m.indexOnly, events[i]) {
      RefusesNothingIsHarmless(m.force, m.indexOnly, events[i]);
    }
    IndexStaysExact(m, events, m', mentioned);
    RunKeepsSettings(m, events, m');
    var entry: Entry := (p, text);
    assert entry.0 !in m'.indexOnly;
    BacksByKind(m'.store, m.force, r, p, text);
  }

  // ----- When updates are committed -----

  // Index updates one after the other: additions and removals.
  function UpdatedBy(m: Filter, updates: seq<(Quad, bool)>): Filter {
    if updates == [] then m
    else
      var before, last := UpdatedBy(m, updates[..|updates| - 1]), updates[|updates| - 1];
      if last.1 then IndexAdd(before, last.0) else IndexRemove(before, last.0)
  }

  lemma UpdateCounts(m: Filter, q: Quad, adds: bool)
    requires Batched(m)
    ensures var m', made := if adds then IndexAdd(m, q) else IndexRemove(m, q), if m.id == 1 then m.count + 1 else 1;
            && Batched(m') && m'.size == m.size
            && (m'.id == 1 <==> made < m.size) && (m'.id == 1 ==> m'.count == made)
  {
    hide View, EntryAdded, EntryRemoved, Committed, Sound;
    IndexAddViews(m, q, q.subject);
    IndexRemoveViews(m, q, q.subject);
    StartKeepsViews(m, q.subject);
    AddInsertsOne(Started(m).index, q.subject, EntryOf(q), q.subject);
    RemoveDeletesAllCopies(Started(m).index, q.subject, EntryOf(q), q.subject);
  }

  lemma NextModulo(n: nat, size: int)
    requires size >= 1
    ensures (n + 1) % size == if n % size + 1 < size then n % size + 1 else 0
  {
    var k := n / size;
    assert n + 1 == size * k + (n % size + 1);
    if n % size + 1 < size {
      ModuloIs(n + 1, size, k, n % size + 1);
    } else {
      assert n + 1 == size * (k + 1) + 0;
      ModuloIs(n + 1, size, k + 1, 0);
    }
  }

  lemma ModuloIs(n: int, size: int, k: int, rest: int)
    requires n == size * k + rest && 0 <= rest < size
    ensures n % size == rest
  {
    var d := n / size;
    assert n == size * d + n % size;
    assert size * (d - k) == rest - n % size;
    MultiplesAreFar(size, d - k);
  }

  lemma MultiplesAreFar(size: int, d: int)
    requires size >= 1
    ensures d >= 1 ==> size * d >= size
    ensures d <= -1 ==> size * d <= -size
  {
  }

  /**
   From a model with no open transaction, every cache-size updates are committed together: after any number of
   updates the remainder is uncommitted, in one transaction, and no transaction is open if there is none.
   */
  lemma {:induction false} UpdatesAreCommittedTogether(m: Filter, updates: seq<(Quad, bool)>)
    requires Batched(m) && m.id == 0
    ensures var m', left := UpdatedBy(m, updates), |updates| % m.size;
            && Batched(m') && m'.size == m.size
            && (m'.index.inTransaction <==> left > 0) && (left > 0 ==> m'.count == left)
    decreases |updates|
  {
    hide Batched, IndexAdd, IndexRemove;
    if updates == [] {
      assert Batched(m) && !m.index.inTransaction && m.size >= 1 by { BatchedFacts(m); }
    } else {
      var n := |updates| - 1;
      UpdatesAreCommittedTogether(m, updates[..n]);
      var before := UpdatedBy(m, updates[..n]);
      UpdateCounts(before, updates[n].0, updates[n].1);
      BatchedFacts(before);
      BatchedFacts(UpdatedBy(m, updates));
      NextModulo(n, m.size);
    }
  }

  lemma BatchedFacts(m: Filter)
    requires Batched(m)
    ensures m.size >= 1 && m.id in {0, 1} && (m.id == 1 <==> m.index.inTransaction)
  {
    hide Sound;
  }

  // A model on a missing index, with nothing stored.
  function FreshFilter(size: int): Filter {
    Filter({}, NO_INDEX, size, 0, 0, {}, {})
  }

  lemma FirstAdditionOpens(q: Quad, size: int)
    requires size > 2 && q.object_.LiteralObject? && q.object_.text != ""
    ensures Batched(FreshFilter(size)) && Backed(FreshFilter(size))
    ensures Unheard(Added(FreshFilter(size), q, true)) == size - 1
  {
    hide Committed, View;
    assert forall r: Id :: View(NO_INDEX, r) == multiset{} by { NothingIsIndexed(); }
  }

  lemma NothingIsIndexed()
    ensures forall r: Id :: View(NO_INDEX, r) == multiset{}
  {
  }

  /**
   Care is needed: while the first transaction of a new index is open, a removed statement stays in the index
   for good, with nothing in the store behind it.
   */
  lemma CarelessRemovalIsLost(q: Quad, size: int)
    requires size > 2 && q.object_.LiteralObject? && q.object_.text != ""
    ensures var m := FreshFilter(size);
            var m' := Queried(RemovedOne(Added(m, q, true), q, true));
            && Batched(m) && Backed(m)
            && m'.store == {} && View(m'.index, q.subject)[EntryOf(q)] == 1 && !Backed(m')
  {
    hide View, Added, RemovedOne, Queried, Unheard, Batched, Sound;
    var m, r, e := FreshFilter(size), q.subject, EntryOf(q);
    var added := Happen(m, Add(q, true));
    var removed := Happen(added, Remove(q, true));
    FirstAdditionOpens(q, size);
    NothingIsIndexed();
    HappenKeepsBatched(m, Add(q, true));
    HappenKeepsBatched(added, Remove(q, true));
    HappenStore(m, Add(q, true));
    HappenStore(added, Remove(q, true));
    HappenStore(removed, LuceneQuery);
    HappenCopies(m, Add(q, true), r, e);
    HappenCopies(added, Remove(q, true), r, e);
    HappenCopies(removed, LuceneQuery, r, e);
    assert Hits({}, q, r, e);
    assert !Backs({}, {}, r, e);
  }

  /** Nor is exactness free: removing one of two statements with the same entry removes the entry of both. */
  lemma SharedEntryIsLost(m: Filter, q: Quad, other: Quad)
    requires Batched(m) && m.index.present && q in m.store && other in m.store && q != other
    requires Hits(m.force, q, other.subject, EntryOf(other)) && Hits(m.force, other, other.subject, EntryOf(other))
    requires q.predicate_ !in m.indexOnly
    ensures !Exact(RemovedOne(m, q, true))
  {
    hide View, IndexRemove, Indexable;
    var m' := RemovedOne(m, q, true);
    RemoveTakesEffect(m, q);
    HappenStore(m, Remove(q, true));
    assert other in m'.store && Backs(m'.store, m'.force, other.subject, EntryOf(other));
  }
}
