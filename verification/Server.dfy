/**
 The server side of a connection (server/serverconnection.cpp): command dispatch, the three tables of open
 iterators, and the replies.
 */
module Server {
  import opened Wrappers
  import opened Bytes
  import opened Rdf
  import opened BindingSets
  import opened Codec
  import opened DataStreams
  import opened Protocol
  import opened ModelPools

  type Cursor = nat   // an open iterator of the backend

  datatype Tables = Tables(
    statements: map<uint32, Cursor>,
    nodes: map<uint32, Cursor>,
    queries: map<uint32, Cursor>)

  /** What a handler calls: a method of the core, of a model, or of an open iterator. */
  datatype BackendCall =
    | OpenCall(model: Name)
    | DropCall(model: Name)
    | FeaturesCall
    | AlterCall(model: Name, change: Change, statement: Statement)
    | ListCall(model: Name, statement: Statement)
    | ContainsCall(model: Name, statement: Statement)
    | ContainsAnyCall(model: Name, statement: Statement)
    | ContextsCall(model: Name)
    | CountCall(model: Name)
    | EmptyCall(model: Name)
    | BlankCall(model: Name)
    | QueryCall(model: Name, query: Blob, language: uint16, userLanguage: Blob)
    | NextCall(cursor: Cursor)
    | StatementCall(cursor: Cursor)
    | NodeCall(cursor: Cursor)
    | BindingsCall(cursor: Cursor)
    | CloseCall(cursor: Cursor)
    | TypeCall(cursor: Cursor)
    | BoolCall(cursor: Cursor)

  // The journal holds what the backend was asked, in order.
  datatype ServerState = ServerState(pool: Pool, tables: Tables, journal: seq<BackendCall>, open: bool)

  datatype QueryKind = Graph | Bool | Binding

  /** What the backend answers to whatever it is asked during one command, and the random numbers drawn meanwhile. */
  datatype Answer = Answer(
    error: Error,                // the last error after the call
    code: uint16,
    contains: bool,
    containsAny: bool,
    empty: bool,
    next: bool,
    boolValue: bool,
    count: int32,
    blankNode: Node,
    node: Node,
    statement: Statement,
    bindings: Bindings,
    features: Option<uint32>,    // None without a backend
    modelOpens: bool,
    cursor: Option<Cursor>,      // None for an invalid iterator
    queryKind: QueryKind,
    modelDraws: seq<Draw>,
    iteratorDraws: seq<Draw>)

  predicate ValidAnswer(ans: Answer) {
    && (ans.code <= 5 || ans.code == 0x1000)
    && ValidNode(ans.blankNode) && ValidNode(ans.node) && ValidStatement(ans.statement)
    && ValidBindings(ans.bindings) && Count(ans.bindings) <= |ans.bindings.names|
  }

  const INVALID_MODEL := Error(false, ERROR_UNKNOWN, Ascii("Invalid model id"), NO_LOCATOR)
  const INVALID_ITERATOR := Error(false, ERROR_UNKNOWN, Ascii("Invalid iterator ID."), NO_LOCATOR)
  const NO_BACKEND := Error(false, ERROR_UNKNOWN, Ascii("No backend available"), NO_LOCATOR)

  // ----- Iterator tables -----

  function OpenIds(t: Tables): set<uint32> {
    t.statements.Keys + t.nodes.Keys + t.queries.Keys
  }

  predicate Disjoint(t: Tables) {
    t.statements.Keys !! t.nodes.Keys && t.statements.Keys !! t.queries.Keys && t.nodes.Keys !! t.queries.Keys
  }

  datatype Table = Statements | Nodes | Queries

  function Mapped(t: Tables, table: Table, id: uint32, cursor: Cursor): Tables {
    match table
    case Statements => t.(statements := t.statements[id := cursor])
    case Nodes => t.(nodes := t.nodes[id := cursor])
    case Queries => t.(queries := t.queries[id := cursor])
  }

  // iteratorClose looks in the tables in this order and erases from the first that has the id.
  function Closed(t: Tables, id: uint32): Tables {
    if id in t.statements then t.(statements := t.statements - {id})
    else if id in t.nodes then t.(nodes := t.nodes - {id})
    else t.(queries := t.queries - {id})
  }

  /** Closing an iterator removes exactly that one. */
  lemma CloseRemovesOne(t: Tables, id: uint32)
    requires Disjoint(t)
    ensures Disjoint(Closed(t, id)) && OpenIds(Closed(t, id)) == OpenIds(t) - {id}
    ensures forall other | other != id ::
              && (other in t.statements <==> other in Closed(t, id).statements)
              && (other in t.nodes <==> other in Closed(t, id).nodes)
              && (other in t.queries <==> other in Closed(t, id).queries)
  {
  }

  // ----- The meaning of a request -----

  predicate CanDraw(sv: ServerState, ans: Answer) {
    HasFresh(sv.pool.ids.Keys, ans.modelDraws) && HasFresh(OpenIds(sv.tables), ans.iteratorDraws)
  }

  // The table a request opens an iterator in.
  function TableOf(req: Request): Option<Table> {
    match req
    case ListStatements(_, _) => Some(Statements)
    case ListContexts(_) => Some(Nodes)
    case Query(_, _, _, _) => Some(Queries)
    case _ => None
  }

  function BodyOf(req: Request, ans: Answer): Body {
    match req
    case ChangeStatement(_, _, _) => Code(ans.code)
    case ContainsStatement(any, _, _) => Flag(if any then ans.containsAny else ans.contains)
    case IsEmpty(_) => Flag(ans.empty)
    case StatementCount(_) => Number(ans.count)
    case CreateBlankNode(_) => NodeBody(ans.blankNode)
    case IteratorNext(_) => Flag(ans.next)
    case CurrentStatement(_) => StatementBody(ans.statement)
    case CurrentNode(_) => NodeBody(ans.node)
    case CurrentBindingSet(_) => BindingsBody(ans.bindings)
    case QueryType(_) => Protocol.Kind(match ans.queryKind case Graph => 1 case Bool => 2 case Binding => 3)
    case QueryBoolValue(_) => Flag(ans.boolValue)
    case _ => NoBody
  }

  // The reply body for an id that is not known.
  function RefusedBody(req: Request): Body {
    match req
    case ChangeStatement(_, _, _) => Code(ERROR_INVALID_ARGUMENT)
    case ListStatements(_, _) => Word(0)
    case ListContexts(_) => Word(0)
    case Query(_, _, _, _) => Word(0)
    case StatementCount(_) => Number(-1)
    case CreateBlankNode(_) => NodeBody(Empty)
    case CurrentNode(_) => NodeBody(Empty)
    case CurrentStatement(_) => StatementBody(EMPTY_STATEMENT)
    case CurrentBindingSet(_) => BindingsBody(NO_BINDINGS)
    case QueryType(_) => Protocol.Kind(0)
    case IteratorClose(_) => NoBody
    case _ => Flag(false)
  }

  predicate NamesIterator(req: Request) {
    req.IteratorNext? || req.CurrentStatement? || req.CurrentNode? || req.CurrentBindingSet? || req.IteratorClose? ||
    req.QueryType? || req.QueryBoolValue?
  }

  function Found(table: map<uint32, Cursor>, id: uint32): Option<Cursor> {
    if id in table then Some(table[id]) else None
  }

  function OrElseFound(first: Option<Cursor>, second: Option<Cursor>): Option<Cursor> {
    if first.Some? then first else second
  }

  // The iterator, sought in the tables that the handler of the request looks at.
  function CursorOf(t: Tables, req: Request): Option<Cursor>
    requires NamesIterator(req)
  {
    var id := req.iterator_;
    match req
    case CurrentStatement(_) => OrElseFound(Found(t.statements, id), Found(t.queries, id))
    case CurrentNode(_) => Found(t.nodes, id)
    case CurrentBindingSet(_) => Found(t.queries, id)
    case QueryType(_) => Found(t.queries, id)
    case QueryBoolValue(_) => Found(t.queries, id)
    case _ => OrElseFound(Found(t.statements, id), OrElseFound(Found(t.nodes, id), Found(t.queries, id)))
  }

  // The method of the model that the handler calls.
  function ModelCall(model: Name, req: Request): BackendCall
    requires NamesModel(req)
  {
    match req
    case ChangeStatement(change, _, s) => AlterCall(model, change, s)
    case ListStatements(_, s) => ListCall(model, s)
    case ContainsStatement(any, _, s) => if any then ContainsAnyCall(model, s) else ContainsCall(model, s)
    case ListContexts(_) => ContextsCall(model)
    case StatementCount(_) => CountCall(model)
    case IsEmpty(_) => EmptyCall(model)
    case CreateBlankNode(_) => BlankCall(model)
    case Query(_, query, language, userLanguage) => QueryCall(model, query, language, userLanguage)
  }

  // The method of the iterator that the handler calls.
  function IteratorCall(cursor: Cursor, req: Request): BackendCall
    requires NamesIterator(req)
  {
    match req
    case IteratorNext(_) => NextCall(cursor)
    case CurrentStatement(_) => StatementCall(cursor)
    case CurrentNode(_) => NodeCall(cursor)
    case CurrentBindingSet(_) => BindingsCall(cursor)
    case IteratorClose(_) => CloseCall(cursor)
    case QueryType(_) => TypeCall(cursor)
    case QueryBoolValue(_) => BoolCall(cursor)
  }

  function Asking(sv: ServerState, call: BackendCall): ServerState {
    sv.(journal := sv.journal + [call])
  }

  /** The effect of a request on a live model. */
  function OnModel(sv: ServerState, req: Request, ans: Answer): (ServerState, Reply)
    requires NamesModel(req) && req.model in sv.pool.ids && CanDraw(sv, ans)
  {
    var sv' := Asking(sv, ModelCall(sv.pool.ids[req.model], req));
    match TableOf(req)
    case None => (sv', Reply(BodyOf(req, ans), ans.error))
    case Some(table) =>
      if ans.cursor.None? then (sv', Reply(Word(0), ans.error))
      else
        var id := FirstFresh(OpenIds(sv.tables), ans.iteratorDraws);
        (sv'.(tables := Mapped(sv.tables, table, id, ans.cursor.value)), Reply(Word(id), ans.error))
  }

  function OnIterator(sv: ServerState, req: Request, ans: Answer): (ServerState, Reply)
    requires NamesIterator(req)
  {
    match CursorOf(sv.tables, req)
    case None => (sv, Reply(RefusedBody(req), INVALID_ITERATOR))
    case Some(cursor) =>
      var sv' := Asking(sv, IteratorCall(cursor, req));
      (if req.IteratorClose? then sv'.(tables := Closed(sv.tables, req.iterator_)) else sv',
       Reply(BodyOf(req, ans), ans.error))
  }

  /** The server's state and reply after a request that was read in full. */
  function Perform(sv: ServerState, req: Request, ans: Answer): (ServerState, Reply)
    requires CanDraw(sv, ans)
  {
    if NamesModel(req) then
      if req.model in sv.pool.ids then OnModel(sv, req, ans) else (sv, Reply(RefusedBody(req), INVALID_MODEL))
    else if NamesIterator(req) then OnIterator(sv, req, ans)
    else match req
      case CreateModel(name) =>
        var (pool, id) := Opened(sv.pool, name, ans.modelOpens, ans.modelDraws);
        var sv' := if name in sv.pool.names then sv else Asking(sv, OpenCall(name));
        (sv'.(pool := pool), Reply(Word(id), NO_ERROR))
      case RemoveModel(name) => (Asking(sv, DropCall(name)).(pool := Removed(sv.pool, name)), Reply(NoBody, NO_ERROR))
      case SupportedFeatures =>
        (Asking(sv, FeaturesCall),
         match ans.features case Some(f) => Reply(Word(f), NO_ERROR) case None => Reply(Word(0), NO_BACKEND))
      case _ => (sv, VersionReply(req.SupportsProtocolVersion? && req.version == PROTOCOL_VERSION))
  }

  // A reply of the form that the client reads for the request.
  predicate Expected(req: Request, reply: Reply) {
    ValidReply(reply) && Fits(ShapeOf(req), reply)
  }

  lemma RefusalReplies(req: Request, error: Error)
    requires NamesModel(req) || NamesIterator(req)
    ensures Expected(req, Reply(RefusedBody(req), error)) && Faithful(Reply(RefusedBody(req), error))
  {
    hide Coherent, ValidStatement;
    NothingIsCoherent();
    NothingIsValid();
  }

  lemma NothingIsCoherent()
    ensures Coherent(NO_BINDINGS) && Distinct(NO_BINDINGS.names)
  {
  }

  lemma NothingIsValid()
    ensures ValidStatement(EMPTY_STATEMENT)
  {
  }

  lemma AnswerReplies(req: Request, ans: Answer, error: Error)
    requires NamesModel(req) || NamesIterator(req)
    requires TableOf(req).None? && ValidAnswer(ans)
    ensures Expected(req, Reply(BodyOf(req, ans), error))
    ensures Coherent(ans.bindings) ==>
              (Faithful(Reply(BodyOf(req, ans), error)) <==> !(req.CurrentBindingSet? && !Distinct(ans.bindings.names)))
  {
    hide Coherent, Distinct, ValidStatement, ValidNode, ValidBindings, Count;
  }

  /** A binding set with a repeated name is sent. */
  ghost predicate Garbles(sv: ServerState, req: Request, ans: Answer) {
    req.CurrentBindingSet? && req.iterator_ in sv.tables.queries && !Distinct(ans.bindings.names)
  }

  /**
   Whatever the backend answers, the reply has the form the client expects; and it can be read back unless a
   binding set in it repeats a name.
   */
  lemma PerformReplies(sv: ServerState, req: Request, ans: Answer)
    requires CanDraw(sv, ans) && ValidAnswer(ans)
    ensures Expected(req, Perform(sv, req, ans).1)
    ensures Coherent(ans.bindings) ==> (Faithful(Perform(sv, req, ans).1) <==> !Garbles(sv, req, ans))
  {
    hide Coherent, BodyOf, RefusedBody, ValidAnswer, ValidNode, ValidStatement, ValidBindings, Distinct;
    if NamesModel(req) || NamesIterator(req) {
      RefusalReplies(req, if NamesModel(req) then INVALID_MODEL else INVALID_ITERATOR);
      if TableOf(req).None? { AnswerReplies(req, ans, ans.error); }
    }
  }

  // ----- Reading a request -----

  // A value that could not be read keeps its default, and the handlers go on.
  function OrElse<T>(p: Parse<T>, default: T): (T, seq<byte>) {
    match p case Got(v, rest) => (v, rest) case Short => (default, [])
  }

  // The commands that name a model, with the model id and nothing else filled in.
  function ModelCommand(command: uint16, id: uint32): (req: Option<Request>)
    ensures req.Some? ==> NamesModel(req.value) && req.value.model == id
  {
    match command
    case 0x2 => Some(ChangeStatement(Add, id, EMPTY_STATEMENT))
    case 0x3 => Some(ChangeStatement(Remove, id, EMPTY_STATEMENT))
    case 0x4 => Some(ChangeStatement(RemoveAll, id, EMPTY_STATEMENT))
    case 0x5 => Some(ListStatements(id, EMPTY_STATEMENT))
    case 0x6 => Some(ContainsStatement(false, id, EMPTY_STATEMENT))
    case 0x7 => Some(ContainsStatement(true, id, EMPTY_STATEMENT))
    case 0x8 => Some(ListContexts(id))
    case 0x9 => Some(StatementCount(id))
    case 0x10 => Some(IsEmpty(id))
    case 0x11 => Some(Query(id, [], 0, []))
    case 0x21 => Some(CreateBlankNode(id))
    case _ => None
  }

  function ReadPayload(lex: Lexicon, req: Request, s: seq<byte>): (r: (Request, seq<byte>))
    requires NamesModel(req)
    ensures NamesModel(r.0) && r.0.model == req.model
  {
    match req
    case ChangeStatement(change, id, _) =>
      var (st, s) := OrElse(DecodeStatement(lex, s), EMPTY_STATEMENT); (ChangeStatement(change, id, st), s)
    case ListStatements(id, _) =>
      var (st, s) := OrElse(DecodeStatement(lex, s), EMPTY_STATEMENT); (ListStatements(id, st), s)
    case ContainsStatement(any, id, _) =>
      var (st, s) := OrElse(DecodeStatement(lex, s), EMPTY_STATEMENT); (ContainsStatement(any, id, st), s)
    case Query(id, _, _, _) =>
      var (query, s) := OrElse(DecodeBlob(s), []);
      var (language, s) := OrElse(DecodeU16(s), 0);
      var (userLanguage, s) := OrElse(DecodeBlob(s), []);
      (Query(id, query, language, userLanguage), s)
    case _ => (req, s)
  }

  // The other commands, with their arguments; None for an unknown command.
  function ReadPlain(command: uint16, s: seq<byte>): Option<(Request, seq<byte>)> {
    match command
    case 0x1 => var (name, s) := OrElse(DecodeBlob(s), []); Some((CreateModel(name), s))
    case 0x22 => var (name, s) := OrElse(DecodeBlob(s), []); Some((RemoveModel(name), s))
    case 0x12 => var (id, s) := OrElse(DecodeU32(s), 0); Some((IteratorNext(id), s))
    case 0x13 => var (id, s) := OrElse(DecodeU32(s), 0); Some((CurrentStatement(id), s))
    case 0x14 => var (id, s) := OrElse(DecodeU32(s), 0); Some((CurrentNode(id), s))
    case 0x15 => var (id, s) := OrElse(DecodeU32(s), 0); Some((CurrentBindingSet(id), s))
    case 0x16 => var (id, s) := OrElse(DecodeU32(s), 0); Some((IteratorClose(id), s))
    case 0x17 => var (id, s) := OrElse(DecodeU32(s), 0); Some((QueryType(id), s))
    case 0x18 => var (id, s) := OrElse(DecodeU32(s), 0); Some((QueryBoolValue(id), s))
    case 0x19 => Some((SupportedFeatures, s))
    case 0x20 => var (version, s) := OrElse(DecodeU32(s), 0); Some((SupportsProtocolVersion(version), s))
    case _ => None
  }

  /** The state, the unread bytes and the bytes written after a command that names a model. */
  function ServeModel(lex: Lexicon, sv: ServerState, req: Request, id: Parse<uint32>, ans: Answer)
    : (ServerState, seq<byte>, seq<byte>)
    requires NamesModel(req) && CanDraw(sv, ans) && ValidAnswer(ans)
    requires id.Got? ==> req.model == id.value
  {
    if id.Short? then (sv, [], EncodeReply(Reply(RefusedBody(req), INVALID_MODEL)))
    else if req.model !in sv.pool.ids then (sv, id.rest, EncodeReply(Reply(RefusedBody(req), INVALID_MODEL)))
    else
      var (req, rest) := ReadPayload(lex, req, id.rest);
      var (sv', reply) := OnModel(sv, req, ans);
      (sv', rest, EncodeReply(reply))
  }

  /** After any other command: the request as read, and the bytes behind it. */
  function ServeInFull(sv: ServerState, req: Request, rest: seq<byte>, ans: Answer): (ServerState, seq<byte>, seq<byte>)
    requires CanDraw(sv, ans) && ValidAnswer(ans)
  {
    PerformReplies(sv, req, ans);
    var (sv', reply) := Perform(sv, req, ans);
    (sv', rest, EncodeReply(reply))
  }

  function ModelId(s: seq<byte>): uint32 {
    OrElse(DecodeU32(s), 0).0
  }

  /** _s_readNextCommand: one command is read from the bytes and served; an unknown one closes the connection. */
  function Serve(lex: Lexicon, sv: ServerState, input: seq<byte>, ans: Answer): (ServerState, seq<byte>, seq<byte>)
    requires CanDraw(sv, ans) && ValidAnswer(ans)
  {
    var (command, s) := OrElse(DecodeU16(input), 0);
    var id := DecodeU32(s);
    match ModelCommand(command, ModelId(s))
    case Some(req) => ServeModel(lex, sv, req, id, ans)
    case None =>
      match ReadPlain(command, s)
      case None => (sv.(open := false), s, [])
      case Some((req, rest)) => ServeInFull(sv, req, rest, ans)
  }

  // ----- Serving the bytes of a request is performing the request -----

  lemma CommandIsKnown(req: Request, id: uint32)
    requires NamesModel(req)
    ensures ModelCommand(Command(req), id).Some?
    ensures RefusedBody(ModelCommand(Command(req), id).value) == RefusedBody(req)
  {
  }

  lemma PayloadIsRead(lex: Lexicon, req: Request, blank: Request, rest: seq<byte>)
    requires NamesModel(req) && ValidRequest(req) && ModelCommand(Command(req), req.model) == Some(blank)
    ensures ReadPayload(lex, blank, EncodePayload(req) + rest) == (NormalRequest(lex, req), rest)
  {
    hide EncodeStatement, DecodeStatement, NormalStatement, EncodeBlob, DecodeBlob, EncodeU16, DecodeU16;
    assert [] + rest == rest;
    match req {
      case ChangeStatement(_, _, s) => StatementRoundTrip(lex, s, rest);
      case ListStatements(_, s) => StatementRoundTrip(lex, s, rest);
      case ContainsStatement(_, _, s) => StatementRoundTrip(lex, s, rest);
      case Query(_, query, language, userLanguage) =>
        var rest2 := EncodeBlob(userLanguage) + rest;
        var rest1 := EncodeU16(language) + rest2;
        assert EncodePayload(req) + rest == EncodeBlob(query) + rest1;
        BlobRoundTrip(query, rest1);
        U16RoundTrip(language, rest2);
        BlobRoundTrip(userLanguage, rest);
      case _ =>
    }
  }

  lemma PlainIsRead(req: Request, rest: seq<byte>)
    requires !NamesModel(req)
    ensures ReadPlain(Command(req), EncodePlainArguments(req) + rest) == Some((req, rest))
    ensures forall id :: ModelCommand(Command(req), id) == None
  {
    hide EncodeBlob, DecodeBlob, EncodeU32, DecodeU32;
    match req {
      case CreateModel(name) => BlobRoundTrip(name, rest);
      case RemoveModel(name) => BlobRoundTrip(name, rest);
      case SupportedFeatures => assert [] + rest == rest;
      case SupportsProtocolVersion(version) => U32RoundTrip(version, rest);
      case IteratorNext(id) => U32RoundTrip(id, rest);
      case CurrentStatement(id) => U32RoundTrip(id, rest);
      case CurrentNode(id) => U32RoundTrip(id, rest);
      case CurrentBindingSet(id) => U32RoundTrip(id, rest);
      case IteratorClose(id) => U32RoundTrip(id, rest);
      case QueryType(id) => U32RoundTrip(id, rest);
      case QueryBoolValue(id) => U32RoundTrip(id, rest);
      case _ =>
    }
  }

  // A payload command on a dead model id.
  predicate Strands(sv: ServerState, req: Request) {
    HasPayload(req) && req.model !in sv.pool.ids
  }

  lemma ServeModelRequest(lex: Lexicon, sv: ServerState, req: Request, ans: Answer, rest: seq<byte>)
    requires NamesModel(req) && ValidRequest(req) && CanDraw(sv, ans) && ValidAnswer(ans)
    ensures ValidReply(Perform(sv, NormalRequest(lex, req), ans).1)
    ensures var (sv', reply) := Perform(sv, NormalRequest(lex, req), ans);
            Serve(lex, sv, EncodeRequest(req) + rest, ans) ==
            (sv', if Strands(sv, req) then EncodePayload(req) + rest else rest, EncodeReply(reply))
  {
    hide EncodeU16, DecodeU16, EncodeU32, DecodeU32, EncodePayload, ReadPayload, EncodeReply, NormalStatement, OnModel,
         ReadPlain, Command, ModelCommand, RefusedBody, TableOf;
    PerformReplies(sv, NormalRequest(lex, req), ans);
    CommandIsKnown(req, req.model);
    var s := EncodePayload(req) + rest;
    assert EncodeRequest(req) + rest == EncodeU16(Command(req)) + (EncodeU32(req.model) + s);
    U16RoundTrip(Command(req), EncodeU32(req.model) + s);
    U32RoundTrip(req.model, s);
    var blank := ModelCommand(Command(req), req.model).value;
    assert RefusedBody(NormalRequest(lex, req)) == RefusedBody(req) by { NormalIsRefusedAlike(lex, req); }
    if req.model in sv.pool.ids {
      PayloadIsRead(lex, req, blank, rest);
    } else if !HasPayload(req) {
      assert s == rest by { EmptyPayload(req); }
    }
  }

  lemma NormalIsRefusedAlike(lex: Lexicon, req: Request)
    ensures RefusedBody(NormalRequest(lex, req)) == RefusedBody(req)
  {
    hide NormalStatement;
  }

  lemma ServePlainRequest(lex: Lexicon, sv: ServerState, req: Request, ans: Answer, rest: seq<byte>)
    requires !NamesModel(req) && CanDraw(sv, ans) && ValidAnswer(ans)
    ensures ValidReply(Perform(sv, req, ans).1)
    ensures var (sv', reply) := Perform(sv, req, ans);
            Serve(lex, sv, EncodeRequest(req) + rest, ans) == (sv', rest, EncodeReply(reply))
  {
    hide EncodeU16, DecodeU16, EncodeU32, DecodeU32, EncodePlainArguments, EncodeReply, ReadPlain, Perform, Command,
         ModelCommand, ServeModel;
    PerformReplies(sv, req, ans);
    var s := EncodePlainArguments(req) + rest;
    assert EncodeRequest(req) + rest == EncodeU16(Command(req)) + s;
    U16RoundTrip(Command(req), s);
    PlainIsRead(req, rest);
  }

  lemma EmptyPayload(req: Request)
    requires NamesModel(req)
    ensures EncodePayload(req) == [] <==> !HasPayload(req)
  {
    hide EncodeBlob;
  }

  /**
   The server performs exactly the request the client wrote, and leaves exactly the bytes behind it unread;
   except that a payload command on a dead model id leaves its payload unread as well.
   */
  lemma ServeRequest(lex: Lexicon, sv: ServerState, req: Request, ans: Answer, rest: seq<byte>)
    requires ValidRequest(req) && CanDraw(sv, ans) && ValidAnswer(ans)
    ensures ValidReply(Perform(sv, NormalRequest(lex, req), ans).1)
    ensures var (sv', reply) := Perform(sv, NormalRequest(lex, req), ans);
            Serve(lex, sv, EncodeRequest(req) + rest, ans) ==
            (sv', if Strands(sv, req) then EncodePayload(req) + rest else rest, EncodeReply(reply))
  {
    hide Serve, Perform, EncodeReply, EncodeRequest, EncodePayload, Command;
    if NamesModel(req) {
      ServeModelRequest(lex, sv, req, ans, rest);
    } else {
      ServePlainRequest(lex, sv, req, ans, rest);
    }
  }

  /** The bytes of a request are consumed exactly, if and only if it does not strand its payload. */
  lemma AlignedExactly(lex: Lexicon, sv: ServerState, req: Request, ans: Answer, rest: seq<byte>)
    requires ValidRequest(req) && CanDraw(sv, ans) && ValidAnswer(ans)
    ensures Serve(lex, sv, EncodeRequest(req) + rest, ans).1 == rest <==> !Strands(sv, req)
  {
    hide Serve, EncodeRequest, Perform, EncodePayload, NormalRequest;
    ServeRequest(lex, sv, req, ans, rest);
    if Strands(sv, req) {
      EmptyPayload(req);
      assert |EncodePayload(req) + rest| > |rest|;
    }
  }

  // ----- Invariants of the server, whatever bytes arrive -----

  /** A model id that is cut short is refused, even if there is a model 0. */
  lemma CutModelIdsAreRefused(lex: Lexicon, sv: ServerState, req: Request, s: seq<byte>, ans: Answer)
    requires CanDraw(sv, ans) && ValidAnswer(ans) && |s| < 4 && NamesModel(req)
    ensures ValidReply(Reply(RefusedBody(req), INVALID_MODEL))
    ensures Serve(lex, sv, EncodeU16(Command(req)) + s, ans) ==
            (sv, [], EncodeReply(Reply(RefusedBody(req), INVALID_MODEL)))
  {
    hide EncodeU16, DecodeU16, EncodeReply, Perform, ValidReply, ReadPayload, ReadPlain, CanDraw, ValidAnswer, OnModel,
         Command, ModelCommand, RefusedBody, ServeInFull;
    U16RoundTrip(Command(req), s);
    RefusalReplies(req, INVALID_MODEL);
    CommandIsKnown(req, 0);
  }

  /** An iterator id that is cut short reads as 0. */
  lemma CutIteratorIdsReadAsZero(lex: Lexicon, sv: ServerState, req: Request, s: seq<byte>, ans: Answer)
    requires CanDraw(sv, ans) && ValidAnswer(ans) && |s| < 4 && NamesIterator(req)
    ensures var req0 := req.(iterator_ := 0);
            && ValidReply(Perform(sv, req0, ans).1)
            && Serve(lex, sv, EncodeU16(Command(req)) + s, ans) ==
               (Perform(sv, req0, ans).0, [], EncodeReply(Perform(sv, req0, ans).1))
  {
    hide EncodeU16, DecodeU16, EncodeReply, Perform, ValidReply, ReadPayload, CanDraw, ValidAnswer, OnModel, ServeModel,
         RefusedBody;
    U16RoundTrip(Command(req), s);
    PerformReplies(sv, req.(iterator_ := 0), ans);
  }

  /**
   The connection is closed by the commands that do not exist, 0 among them, and by nothing else; they change
   nothing else and get no reply.  Bytes that run out before the command is read are such a command.
   */
  lemma UnknownCommandCloses(lex: Lexicon, sv: ServerState, input: seq<byte>, ans: Answer)
    requires CanDraw(sv, ans) && ValidAnswer(ans)
    ensures var (sv', unread, written) := Serve(lex, sv, input, ans);
            match DecodeU16(input)
            case Got(command, rest) =>
              if 0x1 <= command <= 0x9 || 0x10 <= command <= 0x19 || 0x20 <= command <= 0x22
              then sv'.open == sv.open else (sv', unread, written) == (sv.(open := false), rest, [])
            case Short => (sv', unread, written) == (sv.(open := false), [], [])
  {
    hide ValidReply, EncodeReply, ReadPayload, DecodeU32, DecodeBlob, OnModel, Perform, RefusedBody, DecodeU16;
    var (command, s) := OrElse(DecodeU16(input), 0);
    OpenIsKept(sv, ans);
  }

  lemma OpenIsKept(sv: ServerState, ans: Answer)
    requires CanDraw(sv, ans)
    ensures forall req :: Perform(sv, req, ans).0.open == sv.open
    ensures forall req | NamesModel(req) && req.model in sv.pool.ids :: OnModel(sv, req, ans).0.open == sv.open
  {
    hide CanDraw, CursorOf, Opened, Removed, Mapped, Closed, BodyOf, RefusedBody, ModelCall, IteratorCall;
  }

  lemma MapKeepsDisjoint(t: Tables, table: Table, id: uint32, cursor: Cursor)
    requires Disjoint(t) && id !in OpenIds(t)
    ensures Disjoint(Mapped(t, table, id, cursor)) && OpenIds(Mapped(t, table, id, cursor)) == OpenIds(t) + {id}
  {
  }

  lemma PerformKeepsDisjoint(sv: ServerState, req: Request, ans: Answer)
    requires CanDraw(sv, ans) && Disjoint(sv.tables)
    ensures Disjoint(Perform(sv, req, ans).0.tables)
  {
    hide OpenIds, Disjoint, Mapped, Closed, BodyOf, RefusedBody, CursorOf, Opened, Removed;
    if TableOf(req).Some? && ans.cursor.Some? {
      MapKeepsDisjoint(sv.tables, TableOf(req).value, FirstFresh(OpenIds(sv.tables), ans.iteratorDraws),
                       ans.cursor.value);
    } else if req.IteratorClose? {
      CloseRemovesOne(sv.tables, req.iterator_);
    }
  }

  lemma ServeModelKeepsDisjoint(lex: Lexicon, sv: ServerState, req: Request, id: Parse<uint32>, ans: Answer)
    requires NamesModel(req) && CanDraw(sv, ans) && ValidAnswer(ans) && Disjoint(sv.tables)
    requires id.Got? ==> req.model == id.value
    ensures Disjoint(ServeModel(lex, sv, req, id, ans).0.tables)
  {
    hide EncodeReply, OnModel, ValidReply, Perform, Disjoint, ReadPayload;
    if id.Got? && req.model in sv.pool.ids {
      var req' := ReadPayload(lex, req, id.rest).0;
      OnModelIsPerform(sv, req', ans);
      PerformKeepsDisjoint(sv, req', ans);
    }
  }

  /** Whatever bytes arrive, an id never denotes two open iterators. */
  lemma ServeKeepsDisjoint(lex: Lexicon, sv: ServerState, input: seq<byte>, ans: Answer)
    requires CanDraw(sv, ans) && ValidAnswer(ans) && Disjoint(sv.tables)
    ensures Disjoint(Serve(lex, sv, input, ans).0.tables)
  {
    hide ReadPlain, EncodeReply, Perform, DecodeU32, DecodeU16, ModelCommand, ServeModel, Disjoint, NamesModel;
    var (command, s) := OrElse(DecodeU16(input), 0);
    var id := DecodeU32(s);
    match ModelCommand(command, ModelId(s)) {
      case Some(req) => ServeModelKeepsDisjoint(lex, sv, req, id, ans);
      case None =>
        if ReadPlain(command, s).Some? { PerformKeepsDisjoint(sv, ReadPlain(command, s).value.0, ans); }
    }
  }

  lemma OnModelIsPerform(sv: ServerState, req: Request, ans: Answer)
    requires NamesModel(req) && req.model in sv.pool.ids && CanDraw(sv, ans)
    ensures OnModel(sv, req, ans) == Perform(sv, req, ans)
  {
  }

  // ----- What a command gives, another takes back -----

  /**
   The id of a new iterator was unused; every command for its kind finds that iterator; and closing it leaves
   exactly the iterators that were open before.
   */
  lemma IteratorLifetime(sv: ServerState, req: Request, ans: Answer, later: Answer)
    requires CanDraw(sv, ans) && Disjoint(sv.tables)
    requires TableOf(req).Some? && req.model in sv.pool.ids && ans.cursor.Some?
    ensures var (open_, reply) := Perform(sv, req, ans);
            && reply.Reply? && reply.body.Word?
            && var id, t := reply.body.word, open_.tables;
            && id !in OpenIds(sv.tables) && OpenIds(t) == OpenIds(sv.tables) + {id}
            && CursorOf(t, IteratorNext(id)) == CursorOf(t, IteratorClose(id)) == ans.cursor
            && (req.ListStatements? ==> CursorOf(t, CurrentStatement(id)) == ans.cursor)
            && (req.ListContexts? ==> CursorOf(t, CurrentNode(id)) == ans.cursor)
            && (req.Query? ==> CursorOf(t, CurrentBindingSet(id)) == CursorOf(t, CurrentStatement(id)) == ans.cursor)
            && (CanDraw(open_, later) ==> Perform(open_, IteratorClose(id), later).0.tables == sv.tables)
  {
    hide BodyOf, RefusedBody, HasFresh;
    var id := FirstFresh(OpenIds(sv.tables), ans.iteratorDraws);
    var table := TableOf(req).value;
    MapKeepsDisjoint(sv.tables, table, id, ans.cursor.value);
    ClosedAfterMapped(sv.tables, table, id, ans.cursor.value);
  }

  lemma ClosedAfterMapped(t: Tables, table: Table, id: uint32, cursor: Cursor)
    requires id !in OpenIds(t)
    ensures Closed(Mapped(t, table, id, cursor), id) == t
  {
    assert t.statements - {id} == t.statements && t.nodes - {id} == t.nodes && t.queries - {id} == t.queries;
  }

  /** A model that is created can be named, and removing it leaves the ids as they were, and its own refused. */
  lemma ModelLifetime(sv: ServerState, name: Name, ans: Answer, later: Answer)
    requires CanDraw(sv, ans) && Consistent(sv.pool) && name !in sv.pool.names && ans.modelOpens
    ensures var (created, reply) := Perform(sv, CreateModel(name), ans);
            && reply.Reply? && reply.body.Word?
            && var id := reply.body.word;
            && id !in sv.pool.ids && id in created.pool.ids && created.pool.ids[id] == name
            && (CanDraw(created, later) ==>
                  Perform(created, RemoveModel(name), later).0 ==
                  sv.(journal := sv.journal + [OpenCall(name), DropCall(name)]))
  {
    hide BodyOf, RefusedBody, OnModel, OnIterator, OpenIds, HasFresh;
    var (pool, id) := Opened(sv.pool, name, true, ans.modelDraws);
    assert id !in sv.pool.ids;
    assert Removed(pool, name).ids == sv.pool.ids;
    assert Removed(pool, name).names == sv.pool.names;
    assert (sv.journal + [OpenCall(name)]) + [DropCall(name)] == sv.journal + [OpenCall(name), DropCall(name)];
  }

  /** What a request asks of the backend: one call, or none if the model or the iterator is unknown. */
  function Asked(sv: ServerState, req: Request): seq<BackendCall> {
    if NamesModel(req) then
      if req.model in sv.pool.ids then [ModelCall(sv.pool.ids[req.model], req)] else []
    else if NamesIterator(req) then
      match CursorOf(sv.tables, req) case Some(cursor) => [IteratorCall(cursor, req)] case None => []
    else match req
      case CreateModel(name) => if name in sv.pool.names then [] else [OpenCall(name)]
      case RemoveModel(name) => [DropCall(name)]
      case SupportedFeatures => [FeaturesCall]
      case _ => []
  }

  lemma BackendIsAskedOnce(sv: ServerState, req: Request, ans: Answer)
    requires CanDraw(sv, ans)
    ensures Perform(sv, req, ans).0.journal == sv.journal + Asked(sv, req)
    ensures !req.CreateModel? && !req.RemoveModel? ==> Perform(sv, req, ans).0.pool == sv.pool
  {
    hide BodyOf, RefusedBody, HasFresh, OpenIds, Mapped, Closed, CursorOf, Opened, Removed, ModelCall, IteratorCall;
    assert sv.journal + [] == sv.journal;
  }
}
