/**
 What the calls of the server on its backend mean: models are sets of statements and iterators are the rows that
 are still to come (soprano/model.h, soprano/iterator.h).
 */
module Backends {
  import opened Wrappers
  import opened Bytes
  import opened Rdf
  import opened BindingSets
  import opened Protocol
  import opened ModelPools
  import opened Server

  datatype Row = StatementRow(statement: Statement) | NodeRow(node: Node) | BindingsRow(bindings: Bindings)

  datatype RowKind = OverStatements | OverNodes | OverGraph | OverBindings | OverTruth(truth: bool)

  datatype Rows = Rows(kind: RowKind, current: Option<Row>, rest: seq<Row>)

  datatype Backend = Backend(
    models: map<Name, set<Statement>>,
    iterators: map<Cursor, Rows>,
    nextCursor: Cursor,
    blanksMade: nat)

  /** What a backend is free to choose; every choice is allowed. */
  datatype Choices = Choices(
    listing: set<Statement> -> seq<Statement>,                          // the order of a listing
    contexts: set<Node> -> seq<Node>,
    results: (set<Statement>, Blob, uint16, Blob) -> Rows,              // the meaning of the query languages
    blankName: nat -> Blob,
    opens: Name -> bool,
    features: Option<uint32>,
    fault: BackendCall -> Error)                                        // the last error that a call leaves

  datatype Value =
    | Opens(opens: bool)
    | Nothing
    | Features(features: Option<uint32>)
    | CodeIs(code: uint16)
    | Truth(truth: bool)
    | Amount(amount: nat)
    | NodeIs(node: Node)
    | StatementIs(statement: Statement)
    | BindingsAre(bindings: Bindings)
    | KindIs(kind: QueryKind)
    | Iterates(cursor: Option<Cursor>)

  predicate NodeMatches(pattern: Node, n: Node) {
    pattern.Empty? || pattern == n
  }

  predicate StatementMatches(pattern: Statement, s: Statement) {
    && NodeMatches(pattern.subject, s.subject) && NodeMatches(pattern.predicate_, s.predicate_)
    && NodeMatches(pattern.object_, s.object_) && NodeMatches(pattern.context, s.context)
  }

  function Stored(b: Backend, model: Name): set<Statement> {
    if model in b.models then b.models[model] else {}
  }

  function RowsOf(b: Backend, c: Cursor): Rows {
    if c in b.iterators then b.iterators[c] else Rows(OverBindings, None, [])
  }

  predicate Fails(ch: Choices, call: BackendCall) {
    ch.fault(call).code != 0
  }

  /** What a call returns. */
  function ValueOf(ch: Choices, b: Backend, call: BackendCall): Value {
    match call
    case OpenCall(m) => Opens(ch.opens(m))
    case DropCall(_) => Nothing
    case FeaturesCall => Features(ch.features)
    case AlterCall(_, _, _) => CodeIs(ConvertErrorCode(ch.fault(call).code))
    case ListCall(_, _) => Iterates(if Fails(ch, call) then None else Some(b.nextCursor))
    case ContainsCall(m, s) => Truth(s in Stored(b, m))
    case ContainsAnyCall(m, s) => Truth(exists q | q in Stored(b, m) :: StatementMatches(s, q))
    case ContextsCall(_) => Iterates(if Fails(ch, call) then None else Some(b.nextCursor))
    case CountCall(m) => Amount(|Stored(b, m)|)
    case EmptyCall(m) => Truth(Stored(b, m) == {})
    case BlankCall(_) => NodeIs(if ch.blankName(b.blanksMade) == [] then Empty else Blank(ch.blankName(b.blanksMade)))
    case QueryCall(_, _, _, _) => Iterates(if Fails(ch, call) then None else Some(b.nextCursor))
    case NextCall(c) => Truth(RowsOf(b, c).rest != [])
    case StatementCall(c) =>
      (match RowsOf(b, c).current case Some(StatementRow(s)) => StatementIs(s) case _ => StatementIs(EMPTY_STATEMENT))
    case NodeCall(c) => (match RowsOf(b, c).current case Some(NodeRow(n)) => NodeIs(n) case _ => NodeIs(Empty))
    case BindingsCall(c) =>
      (match RowsOf(b, c).current case Some(BindingsRow(s)) => BindingsAre(s) case _ => BindingsAre(NO_BINDINGS))
    case CloseCall(_) => Nothing
    case TypeCall(c) =>
      (match RowsOf(b, c).kind
       case OverGraph => KindIs(Graph)
       case OverTruth(_) => KindIs(Bool)
       case _ => KindIs(Binding))
    case BoolCall(c) => (match RowsOf(b, c).kind case OverTruth(truth) => Truth(truth) case _ => Truth(false))
  }

  function WithRows(b: Backend, rows: Rows): Backend {
    b.(iterators := b.iterators[b.nextCursor := rows], nextCursor := b.nextCursor + 1)
  }

  function Altered(stored: set<Statement>, change: Change, s: Statement): set<Statement> {
    match change
    case Add => stored + {s}
    case Remove => stored - {s}
    case RemoveAll => set q | q in stored && !StatementMatches(s, q)
  }

  /** What a call does. */
  function After(ch: Choices, b: Backend, call: BackendCall): Backend {
    match call
    case OpenCall(m) => if ch.opens(m) && m !in b.models then b.(models := b.models[m := {}]) else b
    case DropCall(m) => b.(models := b.models - {m})
    case AlterCall(m, change, s) =>
      if Fails(ch, call) then b else b.(models := b.models[m := Altered(Stored(b, m), change, s)])
    case ListCall(m, s) =>
      if Fails(ch, call) then b
      else
        var listed := ch.listing(set q | q in Stored(b, m) && StatementMatches(s, q));
        WithRows(b, Rows(OverStatements, None, seq(|listed|, i requires 0 <= i < |listed| => StatementRow(listed[i]))))
    case ContextsCall(m) =>
      if Fails(ch, call) then b
      else
        var listed := ch.contexts(set q | q in Stored(b, m) && !q.context.Empty? :: q.context);
        WithRows(b, Rows(OverNodes, None, seq(|listed|, i requires 0 <= i < |listed| => NodeRow(listed[i]))))
    case QueryCall(m, query, language, user) =>
      if Fails(ch, call) then b else WithRows(b, ch.results(Stored(b, m), query, language, user))
    case BlankCall(_) => b.(blanksMade := b.blanksMade + 1)
    case NextCall(c) =>
      var rows := RowsOf(b, c);
      var moved := if rows.rest == [] then rows.(current := None)
                   else rows.(current := Some(rows.rest[0]), rest := rows.rest[1..]);
      b.(iterators := b.iterators[c := moved])
    case CloseCall(c) => b.(iterators := b.iterators - {c})
    case _ => b
  }

  /** The backend after everything in the journal. */
  function BackendAt(ch: Choices, b: Backend, journal: seq<BackendCall>): Backend {
    if journal == [] then b else After(ch, BackendAt(ch, b, journal[..|journal| - 1]), journal[|journal| - 1])
  }

  // A count on the wire is a 32-bit integer.
  function Wrapped(n: nat): int32 {
    var low := n % 0x1_0000_0000;
    if low < 0x8000_0000 then low else low - 0x1_0000_0000
  }

  // The answer to the call is this value; nothing is said of what was not asked.
  predicate Tells(call: BackendCall, value: Value, ans: Answer) {
    match value
    case Opens(opens) => ans.modelOpens == opens
    case Nothing => true
    case Features(features) => ans.features == features
    case CodeIs(code) => ans.code == code
    case Truth(truth) =>
      (match call
       case ContainsCall(_, _) => ans.contains == truth
       case ContainsAnyCall(_, _) => ans.containsAny == truth
       case EmptyCall(_) => ans.empty == truth
       case NextCall(_) => ans.next == truth
       case _ => ans.boolValue == truth)
    case Amount(amount) => ans.count == Wrapped(amount)
    case NodeIs(node) => if call.BlankCall? then ans.blankNode == node else ans.node == node
    case StatementIs(statement) => ans.statement == statement
    case BindingsAre(bindings) => ans.bindings == bindings
    case KindIs(kind) => ans.queryKind == kind
    case Iterates(cursor) => ans.cursor == cursor
  }

  /** The answer to a call is what the call returns, with the error that it leaves. */
  predicate Truthful(ch: Choices, b: Backend, call: BackendCall, ans: Answer) {
    && (!call.OpenCall? && !call.DropCall? && !call.FeaturesCall? ==> ans.error == ch.fault(call))
    && Tells(call, ValueOf(ch, b, call), ans)
  }

  function Telling(call: BackendCall, value: Value, ans: Answer): Answer {
    match value
    case Opens(opens) => ans.(modelOpens := opens)
    case Nothing => ans
    case Features(features) => ans.(features := features)
    case CodeIs(code) => ans.(code := code)
    case Truth(truth) =>
      (match call
       case ContainsCall(_, _) => ans.(contains := truth)
       case ContainsAnyCall(_, _) => ans.(containsAny := truth)
       case EmptyCall(_) => ans.(empty := truth)
       case NextCall(_) => ans.(next := truth)
       case _ => ans.(boolValue := truth))
    case Amount(amount) => ans.(count := Wrapped(amount))
    case NodeIs(node) => if call.BlankCall? then ans.(blankNode := node) else ans.(node := node)
    case StatementIs(statement) => ans.(statement := statement)
    case BindingsAre(bindings) => ans.(bindings := bindings)
    case KindIs(kind) => ans.(queryKind := kind)
    case Iterates(cursor) => ans.(cursor := cursor)
  }

  lemma TellingTells(call: BackendCall, value: Value, ans: Answer)
    ensures Tells(call, value, Telling(call, value, ans)) && Telling(call, value, ans).error == ans.error
  {
  }

  /** Every call has a truthful answer, whatever else is in it. */
  lemma AnswersExist(ch: Choices, b: Backend, call: BackendCall, ans: Answer)
    ensures Truthful(ch, b, call, Telling(call, ValueOf(ch, b, call), ans.(error := ch.fault(call))))
  {
    hide ValueOf, Tells, Telling;
    TellingTells(call, ValueOf(ch, b, call), ans.(error := ch.fault(call)));
  }

  /** What was added is contained and what was removed is not, and a model without what it could contain is empty. */
  lemma ChangesAreSeen(ch: Choices, b: Backend, m: Name, change: Change, s: Statement)
    requires !Fails(ch, AlterCall(m, change, s))
    ensures var b' := After(ch, b, AlterCall(m, change, s));
            && (change.Add? ==> ValueOf(ch, b', ContainsCall(m, s)) == Truth(true))
            && (change.Add? ==> ValueOf(ch, b', EmptyCall(m)) == Truth(false))
            && (change.Remove? ==> ValueOf(ch, b', ContainsCall(m, s)) == Truth(false))
            && (change.RemoveAll? ==> ValueOf(ch, b', ContainsAnyCall(m, s)) == Truth(false))
            && (change.RemoveAll? && s == EMPTY_STATEMENT ==> ValueOf(ch, b', EmptyCall(m)) == Truth(true))
            && (forall other | other != m :: Stored(b', other) == Stored(b, other))
  {
  }

  function Advanced(ch: Choices, b: Backend, c: Cursor, n: nat): Backend {
    if n == 0 then b else After(ch, Advanced(ch, b, c, n - 1), NextCall(c))
  }

  lemma {:induction false} RowsAdvance(ch: Choices, b: Backend, c: Cursor, n: nat)
    requires n <= |RowsOf(b, c).rest|
    ensures var before, rows := RowsOf(b, c), RowsOf(Advanced(ch, b, c, n), c);
            && rows.rest == before.rest[n..]
            && (n > 0 ==> rows.current == Some(before.rest[n - 1]))
  {
    if n > 0 { RowsAdvance(ch, b, c, n - 1); }
  }

  /** An iterator gives the listing of exactly the statements that match, in order, and then ends. */
  lemma ListingIsIterated(ch: Choices, b: Backend, m: Name, s: Statement, n: nat)
    requires !Fails(ch, ListCall(m, s))
    requires var listed := ch.listing(set q | q in Stored(b, m) && StatementMatches(s, q)); 0 < n <= |listed|
    ensures var listed := ch.listing(set q | q in Stored(b, m) && StatementMatches(s, q));
            var b' := Advanced(ch, After(ch, b, ListCall(m, s)), b.nextCursor, n);
            && ValueOf(ch, b, ListCall(m, s)) == Iterates(Some(b.nextCursor))
            && ValueOf(ch, b', StatementCall(b.nextCursor)) == StatementIs(listed[n - 1])
            && ValueOf(ch, b', NextCall(b.nextCursor)) == Truth(n < |listed|)
  {
    hide StatementMatches, Advanced;
    RowsAdvance(ch, After(ch, b, ListCall(m, s)), b.nextCursor, n);
  }
}
