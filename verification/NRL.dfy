/**
 Cardinality restrictions and named graphs of the NRL model (soprano/nrlmodel.cpp), with contexts ignored as is
 the default.  The parent model is a set of statements that refuses invalid ones.
 */
module NRL {
  import opened Wrappers

  datatype Node = Empty | Resource(uri: string) | Blank(id: string) | Literal(text: string)

  datatype Quad = Quad(subject: Node, predicate_: Node, object_: Node, context: Node)

  // Statement::isValid
  predicate Valid(q: Quad) {
    && (q.subject.Resource? || q.subject.Blank?) && q.predicate_.Resource? && !q.object_.Empty?
    && (q.context.Empty? || q.context.Resource?)
  }

  // An empty node of the pattern matches every node.
  predicate NodeMatches(pattern: Node, n: Node) {
    pattern.Empty? || pattern == n
  }

  predicate Matches(pattern: Quad, q: Quad) {
    && NodeMatches(pattern.subject, q.subject) && NodeMatches(pattern.predicate_, q.predicate_)
    && NodeMatches(pattern.object_, q.object_) && NodeMatches(pattern.context, q.context)
  }

  // The parent model.
  function Without(store: set<Quad>, pattern: Quad): set<Quad> {
    set q | q in store && !Matches(pattern, q)
  }

  function With(store: set<Quad>, q: Quad): set<Quad> {
    if Valid(q) then store + {q} else store
  }

  // ----- Cardinality restrictions -----

  /** One row of the query for restrictions of a predicate: the literals bound to ?min, ?max and ?c, as integers. */
  datatype Row = Row(min: Option<int>, max: Option<int>, c: Option<int>)

  datatype Restriction = Restriction(min: int, max: int, c: int)

  // The last row that sets a value wins; a row that binds ?min is not asked for ?max.
  function Narrowed(r: Restriction, row: Row): Restriction {
    var r := if row.min.Some? then r.(min := row.min.value)
             else if row.max.Some? then r.(max := row.max.value) else r;
    if row.c.Some? then r.(c := row.c.value) else r
  }

  function RestrictionOf(rows: seq<Row>): Restriction {
    if rows == [] then Restriction(-1, -1, -1) else Narrowed(RestrictionOf(rows[..|rows| - 1]), rows[|rows| - 1])
  }

  /** How many statements a subject may have; restrictions to 0, or to a minimum alone, are unusable. */
  function LimitOf(rows: seq<Row>): (limit: Option<nat>)
    ensures limit.Some? ==> limit.value >= 1
  {
    var r := RestrictionOf(rows);
    if r.c == 1 || r.max == 1 then Some(1)
    else if r.c > 1 then Some(r.c)
    else if r.max > 1 then Some(r.max)
    else None
  }

  // ----- What the rows declare -----

  // Row i gives the cardinality k, and no later row gives one.
  ghost predicate CardinalityAt(rows: seq<Row>, k: int, i: nat) {
    i < |rows| && rows[i].c == Some(k) && forall j | i < j < |rows| :: rows[j].c.None?
  }

  ghost predicate SetsCardinality(rows: seq<Row>, k: int) {
    exists i :: CardinalityAt(rows, k, i)
  }

  // Row i gives the maximum k and no minimum, and no later row is like that.
  ghost predicate MaximumAt(rows: seq<Row>, k: int, i: nat) {
    && i < |rows| && rows[i].min.None? && rows[i].max == Some(k)
    && forall j | i < j < |rows| :: rows[j].min.Some? || rows[j].max.None?
  }

  ghost predicate SetsMaximum(rows: seq<Row>, k: int) {
    exists i :: MaximumAt(rows, k, i)
  }

  /** The rows allow a subject at most k values: 1 if either number is 1, else the cardinality, else the maximum. */
  ghost predicate Declares(rows: seq<Row>, k: nat) {
    if k == 1 then SetsCardinality(rows, 1) || SetsMaximum(rows, 1)
    else
      && k > 1 && !SetsMaximum(rows, 1)
      && (SetsCardinality(rows, k) || (SetsMaximum(rows, k) && forall n: nat | n >= 1 :: !SetsCardinality(rows, n)))
  }

  lemma {:induction false} LastCardinality(rows: seq<Row>, k: nat)
    ensures SetsCardinality(rows, k) <==> RestrictionOf(rows).c == k
    decreases |rows|
  {
    if rows != [] {
      var n := |rows| - 1;
      LastCardinality(rows[..n], k);
      if rows[n].c.None? {
        assert forall i: nat | i < n :: CardinalityAt(rows, k, i) <==> CardinalityAt(rows[..n], k, i);
      } else {
        assert rows[n].c.value == k ==> CardinalityAt(rows, k, n);
      }
    }
  }

  lemma {:induction false} LastMaximum(rows: seq<Row>, k: nat)
    ensures SetsMaximum(rows, k) <==> RestrictionOf(rows).max == k
    decreases |rows|
  {
    if rows != [] {
      var n := |rows| - 1;
      LastMaximum(rows[..n], k);
      if rows[n].min.Some? || rows[n].max.None? {
        assert forall i: nat | i < n :: MaximumAt(rows, k, i) <==> MaximumAt(rows[..n], k, i);
      } else {
        assert rows[n].max.value == k ==> MaximumAt(rows, k, n);
      }
    }
  }

  /** The limit that is enforced is the number the rows declare, and there is none if they declare none. */
  lemma LimitIsDeclared(rows: seq<Row>)
    ensures forall k: nat :: Declares(rows, k) <==> LimitOf(rows) == Some(k)
  {
    hide SetsCardinality, SetsMaximum, RestrictionOf;
    forall k: nat ensures Declares(rows, k) <==> LimitOf(rows) == Some(k) {
      LastCardinality(rows, k);
      LastMaximum(rows, k);
      LastCardinality(rows, 1);
      LastMaximum(rows, 1);
      forall n: nat ensures SetsCardinality(rows, n) <==> RestrictionOf(rows).c == n {
        LastCardinality(rows, n);
      }
      assert RestrictionOf(rows).c > 1 ==> SetsCardinality(rows, RestrictionOf(rows).c);
    }
  }

  // The statements of a subject and predicate; empty nodes stand for any.
  function Slice(store: set<Quad>, s: Node, p: Node): set<Quad> {
    set q | q in store && Matches(Quad(s, p, Empty, Empty), q)
  }

  datatype Outcome = Outcome(store: set<Quad>, ok: bool)

  /** addNrlStatement */
  function AddNrl(store: set<Quad>, q: Quad, rows: seq<Row>): Outcome {
    match LimitOf(rows)
    case None => Outcome(With(store, q), Valid(q))
    case Some(limit) =>
      if limit == 1 then
        Outcome(With(Without(store, Quad(q.subject, q.predicate_, Empty, Empty)), q), Valid(q))
      else if |Slice(store, q.subject, q.predicate_)| >= limit then Outcome(store, false)
      else Outcome(With(store, q), Valid(q))
  }

  predicate InSlice(q: Quad, s: Node, p: Node) {
    q.subject == s && q.predicate_ == p
  }

  lemma SliceGrowsByOne(store: set<Quad>, q: Quad, s: Node, p: Node)
    requires Valid(q) && !s.Empty? && !p.Empty?
    ensures Slice(store + {q}, s, p) == if InSlice(q, s, p) then Slice(store, s, p) + {q} else Slice(store, s, p)
    ensures |Slice(store + {q}, s, p)| <= |Slice(store, s, p)| + 1
  {
    var slice := Slice(store, s, p);
    if InSlice(q, s, p) && q in slice { assert slice + {q} == slice; }
  }

  lemma SliceShrinks(smaller: set<Quad>, store: set<Quad>, s: Node, p: Node)
    requires smaller <= store
    ensures Slice(smaller, s, p) <= Slice(store, s, p) && |Slice(smaller, s, p)| <= |Slice(store, s, p)|
  {
    SubsetIsSmaller(Slice(smaller, s, p), Slice(store, s, p));
  }

  lemma {:induction false} SubsetIsSmaller<T>(a: set<T>, b: set<T>)
    requires a <= b
    ensures |a| <= |b|
    decreases |a|
  {
    if a != {} {
      var x :| x in a;
      SubsetIsSmaller(a - {x}, b - {x});
    }
  }

  /** A limit of 1 leaves exactly the new statement, if and only if the statement is valid. */
  lemma LimitOneLeavesExactlyOne(store: set<Quad>, q: Quad, rows: seq<Row>)
    requires Declares(rows, 1)
    ensures Slice(AddNrl(store, q, rows).store, q.subject, q.predicate_) == {q} <==> Valid(q)
    ensures AddNrl(store, q, rows).ok <==> Valid(q)
  {
    hide LimitOf, Declares;
    LimitIsDeclared(rows);
    var pattern := Quad(q.subject, q.predicate_, Empty, Empty);
    var cleared := Without(store, pattern);
    assert Slice(cleared, q.subject, q.predicate_) == {};
    if Valid(q) {
      SliceGrowsByOne(cleared, q, q.subject, q.predicate_);
    } else {
      assert q !in Slice(cleared, q.subject, q.predicate_);
    }
  }

  /** A full set is rejected and the store is unchanged; a set with room takes the statement and loses nothing. */
  lemma FullSetIsRejected(store: set<Quad>, q: Quad, rows: seq<Row>, k: nat)
    requires k > 1 && Declares(rows, k) && Valid(q)
    ensures var full := |Slice(store, q.subject, q.predicate_)| >= k;
            && AddNrl(store, q, rows).ok == !full
            && AddNrl(store, q, rows).store == if full then store else store + {q}
  {
    hide LimitOf, Declares;
    LimitIsDeclared(rows);
  }

  /** Where nothing is declared every valid statement is added. */
  lemma NothingDeclaredAddsAll(store: set<Quad>, q: Quad, rows: seq<Row>)
    requires forall k: nat :: !Declares(rows, k)
    ensures AddNrl(store, q, rows).store == (if Valid(q) then store + {q} else store)
    ensures AddNrl(store, q, rows).ok <==> Valid(q)
  {
    hide LimitOf, Declares;
    LimitMeansDeclared(rows);
  }

  lemma LimitMeansDeclared(rows: seq<Row>)
    ensures LimitOf(rows).Some? ==> exists k: nat :: Declares(rows, k)
  {
    hide LimitOf, Declares;
    LimitIsDeclared(rows);
    if LimitOf(rows).Some? { assert Declares(rows, LimitOf(rows).value); }
  }

  // All of this for one addition.
  lemma AddMeans(store: set<Quad>, q: Quad, rows: seq<Row>)
    ensures var after := AddNrl(store, q, rows);
            && (Declares(rows, 1) ==>
                  (Slice(after.store, q.subject, q.predicate_) == {q} <==> Valid(q)) && (after.ok <==> Valid(q)))
            && (forall k: nat | k > 1 && Declares(rows, k) && Valid(q) ::
                  after.ok == (|Slice(store, q.subject, q.predicate_)| < k))
            && (!after.ok && Valid(q) ==> after.store == store)
            && (after.ok && !Declares(rows, 1) ==> after.store == store + {q})
  {
    hide LimitOf, Declares, Slice;
    LimitIsDeclared(rows);
    if Declares(rows, 1) { LimitOneLeavesExactlyOne(store, q, rows); }
  }

  /** A valid statement touches no other subject or predicate. */
  lemma OthersAreUntouched(store: set<Quad>, q: Quad, rows: seq<Row>, other: Quad)
    requires Valid(q) && !InSlice(other, q.subject, q.predicate_)
    ensures other in AddNrl(store, q, rows).store <==> other in store
  {
    hide LimitOf;
  }

  /**
   An invalid statement is never added; under a limit of 1 it nevertheless removes what it stands for, and an
   empty subject or predicate stands for every one.
   */
  lemma InvalidRemovesUnderLimitOne(store: set<Quad>, q: Quad, rows: seq<Row>)
    requires !Valid(q)
    ensures var after := AddNrl(store, q, rows);
            && !after.ok
            && after.store == store - if Declares(rows, 1) then Slice(store, q.subject, q.predicate_) else {}
  {
    hide LimitOf, Declares;
    LimitIsDeclared(rows);
  }

  lemma DeclaredIsPositive(rows: seq<Row>, k: nat)
    requires Declares(rows, k)
    ensures k >= 1
  {
  }

  lemma AddKeepsWithin(store: set<Quad>, q: Quad, rows: seq<Row>, s: Node, p: Node, k: nat)
    requires k >= 1 && !s.Empty? && !p.Empty? && |Slice(store, s, p)| <= k
    requires q.predicate_ == p ==> Declares(rows, k)
    ensures |Slice(AddNrl(store, q, rows).store, s, p)| <= k
  {
    hide LimitOf, Declares;
    LimitIsDeclared(rows);
    var cleared := Without(store, Quad(q.subject, q.predicate_, Empty, Empty));
    SliceShrinks(cleared, store, s, p);
    if Valid(q) {
      SliceGrowsByOne(store, q, s, p);
      SliceGrowsByOne(cleared, q, s, p);
      if InSlice(q, s, p) { assert Slice(cleared, s, p) == {}; }
    }
  }

  /** The restrictions of every predicate, fixed for a run. */
  type Restrictions = Node -> seq<Row>

  function AddAll(store: set<Quad>, statements: seq<Quad>, restrictions: Restrictions): set<Quad>
    decreases |statements|
  {
    if statements == [] then store
    else
      var q := statements[0];
      AddAll(AddNrl(store, q, restrictions(q.predicate_)).store, statements[1..], restrictions)
  }

  /** A subject with no more values than are declared for a predicate never gets more, whatever is added. */
  lemma {:induction false} RunsStayWithinLimits(store: set<Quad>, statements: seq<Quad>, restrictions: Restrictions,
                                                s: Node, p: Node, k: nat)
    requires !s.Empty? && !p.Empty? && Declares(restrictions(p), k)
    requires |Slice(store, s, p)| <= k
    ensures |Slice(AddAll(store, statements, restrictions), s, p)| <= k
    decreases |statements|
  {
    hide Declares, AddNrl, Slice;
    if statements != [] {
      var q := statements[0];
      assert k >= 1 by { DeclaredIsPositive(restrictions(p), k); }
      AddKeepsWithin(store, q, restrictions(q.predicate_), s, p, k);
      RunsStayWithinLimits(AddNrl(store, q, restrictions(q.predicate_)).store, statements[1..], restrictions, s, p,
                           k);
    }
  }

  /** What no statement of a run is about stays as it is, as long as all of them are valid. */
  lemma {:induction false} RunsTouchOnlyTheirOwn(store: set<Quad>, statements: seq<Quad>, restrictions: Restrictions,
                                                 other: Quad)
    requires forall q <- statements :: Valid(q) && !InSlice(other, q.subject, q.predicate_)
    ensures other in AddAll(store, statements, restrictions) <==> other in store
    decreases |statements|
  {
    hide AddNrl, InSlice, Valid;
    if statements != [] {
      var q := statements[0];
      assert q in statements;
      OthersAreUntouched(store, q, restrictions(q.predicate_), other);
      RunsTouchOnlyTheirOwn(AddNrl(store, q, restrictions(q.predicate_)).store, statements[1..], restrictions, other);
    }
  }

  // ----- Graphs -----

  const NRL_NAMESPACE := "http://www.semanticdesktop.org/ontologies/2007/08/15/nrl#"
  const CORE_GRAPH_METADATA_FOR := Resource(NRL_NAMESPACE + "coreGraphMetadataFor")
  const GRAPH_METADATA := Resource(NRL_NAMESPACE + "GraphMetadata")
  const RDF_TYPE := Resource("http://www.w3.org/1999/02/22-rdf-syntax-ns#type")
  const NAO_CREATED := Resource("http://www.semanticdesktop.org/ontologies/2007/08/15/nao#created")

  /** createGraph: `graph` and `metadata` are new URIs, `now` is the current time. */
  function GraphCreated(store: set<Quad>, graph: Node, metadata: Node, type_: Node, now: string): set<Quad> {
    With(With(With(With(store, Quad(metadata, CORE_GRAPH_METADATA_FOR, graph, metadata)),
                   Quad(metadata, RDF_TYPE, GRAPH_METADATA, metadata)),
              Quad(graph, RDF_TYPE, type_, metadata)),
         Quad(graph, NAO_CREATED, Literal(now), metadata))
  }

  // What the store says is a metadata graph of the graph.
  function MetadataGraphs(store: set<Quad>, graph: Node): set<Node> {
    set q | q in store && q.predicate_ == CORE_GRAPH_METADATA_FOR && q.object_ == graph :: q.subject
  }

  function InContext(context: Node): Quad {
    Quad(Empty, Empty, Empty, context)
  }

  /** removeGraph: everything in the graph and in its metadata graphs goes. */
  function GraphRemoved(store: set<Quad>, graph: Node): set<Quad> {
    set q | q in store && !(NodeMatches(graph, q.context) ||
                            exists mg | mg in MetadataGraphs(store, graph) :: NodeMatches(mg, q.context))
  }

  // The metadata graphs named by well-formed statements are no empty nodes.
  predicate AllValid(store: set<Quad>) {
    forall q | q in store :: Valid(q)
  }

  lemma CreatedGraph(store: set<Quad>, graph: Node, metadata: Node, type_: Node, now: string)
    requires graph.Resource? && metadata.Resource?
    ensures var created := GraphCreated(store, graph, metadata, type_, now);
            && store <= created && (forall q | q in created - store :: q.context == metadata)
            && Quad(metadata, CORE_GRAPH_METADATA_FOR, graph, metadata) in created
            && (AllValid(store) ==> AllValid(created))
  {
  }

  /**
   Removing a graph undoes its creation and everything added in it, if and only if nothing older is in the
   graph or in anything that is said to be a metadata graph of it.
   */
  lemma RemoveGraphUndoesCreate(store: set<Quad>, graph: Node, metadata: Node, type_: Node, now: string,
                                content: set<Quad>)
    requires AllValid(store) && AllValid(content) && graph.Resource? && metadata.Resource?
    requires forall q | q in content :: q.context == graph
    ensures var full := GraphCreated(store, graph, metadata, type_, now) + content;
            GraphRemoved(full, graph) == store <==>
            forall q | q in store :: q.context != graph && q.context !in MetadataGraphs(full, graph)
  {
    hide GraphCreated;
    CreatedGraph(store, graph, metadata, type_, now);
    var full := GraphCreated(store, graph, metadata, type_, now) + content;
    var mgs := MetadataGraphs(full, graph);
    assert metadata in mgs by {
      var link := Quad(metadata, CORE_GRAPH_METADATA_FOR, graph, metadata);
      assert link in full && link.predicate_ == CORE_GRAPH_METADATA_FOR && link.object_ == graph;
    }
    assert forall q | q in full :: Valid(q);
    assert forall mg | mg in mgs :: !mg.Empty?;
    assert forall q | q in full :: q in GraphRemoved(full, graph) <==> q.context != graph && q.context !in mgs;
  }

  // As RemoveGraphUndoesCreate, with nothing added in the graph.
  lemma CreatedIsUndone(store: set<Quad>, graph: Node, metadata: Node, type_: Node, now: string)
    ensures var created := GraphCreated(store, graph, metadata, type_, now);
            graph.Resource? && metadata.Resource? ==>
              && store <= created && (forall q | q in created - store :: q.context == metadata)
              && metadata in MetadataGraphs(created, graph)
              && (AllValid(store) ==>
                    (GraphRemoved(created, graph) == store <==>
                     forall q | q in store :: q.context != graph && q.context !in MetadataGraphs(created, graph)))
  {
    hide GraphCreated, GraphRemoved;
    if graph.Resource? && metadata.Resource? {
      var created := GraphCreated(store, graph, metadata, type_, now);
      CreatedGraph(store, graph, metadata, type_, now);
      assert Quad(metadata, CORE_GRAPH_METADATA_FOR, graph, metadata).subject == metadata;
      if AllValid(store) {
        RemoveGraphUndoesCreate(store, graph, metadata, type_, now, {});
        assert created + {} == created;
      }
    }
  }

  /** Without a URI, every statement is in the graph. */
  lemma RemovingNoGraphRemovesAll(store: set<Quad>)
    ensures GraphRemoved(store, Empty) == {}
  {
  }

  class NRLModel {
    var store: set<Quad>   // the parent model

    method AddStatement(q: Quad) returns (ok: bool)
      modifies this
      ensures store == With(old(store), q) && (ok <==> Valid(q))
    {
      ok := Valid(q);
      if ok { store := store + {q}; }
    }

    method RemoveMatching(pattern: Quad)
      modifies this
      ensures store == Without(old(store), pattern)
    {
      store := set q | q in store && !Matches(pattern, q);
    }

    /** What the rows declare about the statement's predicate is enforced. */
    method AddNrlStatement(q: Quad, rows: seq<Row>) returns (ok: bool)
      modifies this
      ensures Outcome(store, ok) == AddNrl(old(store), q, rows)
      ensures Declares(rows, 1) ==> (Slice(store, q.subject, q.predicate_) == {q} <==> Valid(q)) && (ok <==> Valid(q))
      ensures forall k: nat | k > 1 && Declares(rows, k) && Valid(q) ::
                ok == (|Slice(old(store), q.subject, q.predicate_)| < k)
      ensures !ok && Valid(q) ==> store == old(store)
      ensures ok && !Declares(rows, 1) ==> store == old(store) + {q}
    {
      ghost var before := store;
      AddMeans(before, q, rows);
      var min, max, c := -1, -1, -1;
      for i := 0 to |rows|
        invariant Restriction(min, max, c) == RestrictionOf(rows[..i])
      {
        assert rows[..i + 1][..i] == rows[..i];
        if rows[i].min.Some? {
          min := rows[i].min.value;
        } else if rows[i].max.Some? {
          max := rows[i].max.value;
        }
        if rows[i].c.Some? { c := rows[i].c.value; }
      }
      assert rows[..|rows|] == rows;
      if min >= 0 || max >= 0 || c >= 0 {
        if c == 1 || max == 1 {
          RemoveMatching(Quad(q.subject, q.predicate_, Empty, Empty));
          ok := AddStatement(q);
          return;
        } else if max > 1 || c > 1 {
          if c > 1 { max := c; }
          var matching := Slice(store, q.subject, q.predicate_);
          if |matching| >= max {
            // more than one statement matches, so that there is never a single one to replace
            assert |matching| != 1;
            return false;
          }
          ok := AddStatement(q);
          return;
        }
      }
      ok := AddStatement(q);
    }

    /**
     What is added lies in the metadata graph and links it to the graph; and removing the graph restores the store
     if and only if nothing older is in the graph or in anything that is said to be its metadata graph.
     */
    method CreateGraph(graph: Node, metadata: Node, type_: Node, now: string)
      modifies this
      ensures store == GraphCreated(old(store), graph, metadata, type_, now)
      ensures graph.Resource? && metadata.Resource? ==>
                && old(store) <= store && (forall q | q in store - old(store) :: q.context == metadata)
                && metadata in MetadataGraphs(store, graph)
      ensures graph.Resource? && metadata.Resource? && type_.Resource? ==>
                store == old(store) + {Quad(metadata, CORE_GRAPH_METADATA_FOR, graph, metadata),
                                       Quad(metadata, RDF_TYPE, GRAPH_METADATA, metadata),
                                       Quad(graph, RDF_TYPE, type_, metadata),
                                       Quad(graph, NAO_CREATED, Literal(now), metadata)}
      ensures graph.Resource? && metadata.Resource? && AllValid(old(store)) ==>
                (GraphRemoved(store, graph) == old(store) <==>
                 forall q | q in old(store) :: q.context != graph && q.context !in MetadataGraphs(store, graph))
    {
      CreatedIsUndone(store, graph, metadata, type_, now);
      var added := AddStatement(Quad(metadata, CORE_GRAPH_METADATA_FOR, graph, metadata));
      added := AddStatement(Quad(metadata, RDF_TYPE, GRAPH_METADATA, metadata));
      added := AddStatement(Quad(graph, RDF_TYPE, type_, metadata));
      added := AddStatement(Quad(graph, NAO_CREATED, Literal(now), metadata));
    }

    method RemoveGraph(graph: Node)
      modifies this
      ensures store == GraphRemoved(old(store), graph)
    {
      ghost var start := store;
      var metadataGraphs := MetadataGraphs(store, graph);
      var pending := metadataGraphs;
      while pending != {}
        invariant pending <= metadataGraphs
        invariant store == set q | q in start &&
                                   !exists mg | mg in metadataGraphs - pending :: NodeMatches(mg, q.context)
      {
        var mg :| mg in pending;
        RemoveMatching(InContext(mg));
        pending := pending - {mg};
      }
      RemoveMatching(InContext(graph));
    }

    /** removeAllStatements: a pattern with nothing but a context removes a graph. */
    method RemoveAllStatements(pattern: Quad)
      modifies this
      ensures store == if !pattern.context.Empty? && pattern == InContext(pattern.context)
                       then GraphRemoved(old(store), pattern.context) else Without(old(store), pattern)
    {
      if !pattern.context.Empty? && pattern.subject.Empty? && pattern.predicate_.Empty? && pattern.object_.Empty? {
        RemoveGraph(pattern.context);
      } else {
        RemoveMatching(pattern);
      }
    }
  }
}
