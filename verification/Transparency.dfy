/**
 The server is transparent: over every aligned session the client gets, call by call, the values and errors that
 the same calls on the backend give.  A direct caller keeps what its ids stand for; nothing here speaks of the
 server's tables, of the replies it composes or of the calls it chooses.
 */
module Transparency {
  import opened Wrappers
  import opened Bytes
  import opened Rdf
  import opened BindingSets
  import opened Codec
  import opened Protocol
  import opened ModelPools
  import opened Server
  import opened ClientConnections
  import opened Sessions
  import opened Backends

  // ----- Direct calls -----

  datatype HandleKind = OfStatements | OfNodes | OfQuery

  datatype Handle = Handle(kind: HandleKind, cursor: Cursor)

  /** A caller of the backend: which model and which iterator its ids stand for. */
  datatype Direct = Direct(backend: Backend, models: map<uint32, Name>, handles: map<uint32, Handle>)

  /** The call that a request stands for; None if its id stands for nothing, or for an iterator of another kind. */
  function Intended(d: Direct, req: Request): Option<BackendCall> {
    match req
    case ChangeStatement(change, m, s) => if m in d.models then Some(AlterCall(d.models[m], change, s)) else None
    case ListStatements(m, s) => if m in d.models then Some(ListCall(d.models[m], s)) else None
    case ContainsStatement(any, m, s) =>
      if m !in d.models then None
      else if any then Some(ContainsAnyCall(d.models[m], s)) else Some(ContainsCall(d.models[m], s))
    case ListContexts(m) => if m in d.models then Some(ContextsCall(d.models[m])) else None
    case StatementCount(m) => if m in d.models then Some(CountCall(d.models[m])) else None
    case IsEmpty(m) => if m in d.models then Some(EmptyCall(d.models[m])) else None
    case CreateBlankNode(m) => if m in d.models then Some(BlankCall(d.models[m])) else None
    case Query(m, query, language, user) =>
      if m in d.models then Some(QueryCall(d.models[m], query, language, user)) else None
    case IteratorNext(i) => if i in d.handles then Some(NextCall(d.handles[i].cursor)) else None
    case IteratorClose(i) => if i in d.handles then Some(CloseCall(d.handles[i].cursor)) else None
    case CurrentStatement(i) =>
      if i in d.handles && !d.handles[i].kind.OfNodes? then Some(StatementCall(d.handles[i].cursor)) else None
    case CurrentNode(i) =>
      if i in d.handles && d.handles[i].kind.OfNodes? then Some(NodeCall(d.handles[i].cursor)) else None
    case CurrentBindingSet(i) =>
      if i in d.handles && d.handles[i].kind.OfQuery? then Some(BindingsCall(d.handles[i].cursor)) else None
    case QueryType(i) =>
      if i in d.handles && d.handles[i].kind.OfQuery? then Some(TypeCall(d.handles[i].cursor)) else None
    case QueryBoolValue(i) =>
      if i in d.handles && d.handles[i].kind.OfQuery? then Some(BoolCall(d.handles[i].cursor)) else None
    case CreateModel(_) | RemoveModel(_) | SupportedFeatures | SupportsProtocolVersion(_) => None
  }

  /**
   A reply body shows a value.  The type of a query is what the client's iterator makes of the number
   (client/clientqueryresultiteratorbackend.cpp:129-157); a new iterator shows as an id in no other use.
   */
  predicate Shows(lex: Lexicon, d: Direct, body: Body, value: Value) {
    match value
    case CodeIs(code) => body == Code(code)
    case Truth(truth) => body.Flag? && (body.flag <==> truth)
    case Amount(amount) => body.Number? && (amount < 0x8000_0000 ==> body.number == amount)
    case NodeIs(node) => body == NodeBody(NormalNode(lex, node))
    case StatementIs(s) => body == StatementBody(NormalStatement(lex, s))
    case BindingsAre(b) => body == BindingsBody(NormalBindings(lex, b))
    case KindIs(kind) =>
      && body.Kind? && (body.kind == 1 <==> kind.Graph?) && (body.kind == 2 <==> kind.Bool?)
      && (body.kind == 3 <==> kind.Binding?)
    case Iterates(None) => body == Word(0)
    case Iterates(Some(_)) => body.Word? && body.word !in d.handles
    case Nothing => body.NoBody?
    case Opens(_) => false
    case Features(_) => false
  }

  /** An id that stands for nothing: an error, and false, -1, 0, or something empty. */
  predicate Refused(reply: Reply) {
    && reply.Reply? && reply.error.code == ERROR_UNKNOWN && reply.error.message != []
    && match reply.body
       case Flag(flag) => !flag
       case Number(number) => number == -1
       case Word(word) => word == 0
       case Code(code) => code == ERROR_INVALID_ARGUMENT
       case NodeBody(node) => node == Empty
       case StatementBody(s) => s == Statement(Empty, Empty, Empty, Empty)
       case BindingsBody(b) => b.names == [] && b.values == []
       case Kind(kind) => kind !in {1, 2, 3}
       case NoBody => true
  }

  predicate Succeeded(reply: Reply) {
    reply.Reply? && reply.error.code == 0
  }

  /** The reply to a command on an id: what the call shows, or a refusal. */
  ghost predicate SeenCall(lex: Lexicon, ch: Choices, d: Direct, call: Option<BackendCall>, shape: Shape, reply: Reply)
  {
    match call
    case None => Refused(reply) && Fits(shape, reply)
    case Some(call) =>
      && reply.Reply? && reply.error == NormalError(ch.fault(call))
      && Shows(lex, d, reply.body, ValueOf(ch, d.backend, call))
  }

  /** The reply that the client gets to a request is what the direct caller sees. */
  ghost predicate SeenDirectly(lex: Lexicon, ch: Choices, d: Direct, req: Request, reply: Reply) {
    match req
    case SupportsProtocolVersion(version) => reply == VersionReply(version == 5)
    case SupportedFeatures =>
      (match ch.features
       case Some(features) => Succeeded(reply) && reply.body == Word(features)
       case None => Refused(reply) && reply.body.Word?)
    case RemoveModel(_) => Succeeded(reply) && reply.body.NoBody?
    case CreateModel(name) =>
      && Succeeded(reply) && reply.body.Word?
      && var id := reply.body.word;
      if name in d.models.Values then id in d.models && d.models[id] == name
      else if ch.opens(name) then id !in d.models
      else id == 0
    case _ => SeenCall(lex, ch, d, Intended(d, req), ShapeOf(req), reply)
  }

  function KindOpened(req: Request): HandleKind {
    match req case ListStatements(_, _) => OfStatements case ListContexts(_) => OfNodes case _ => OfQuery
  }

  function IdIn(reply: Reply): uint32 {
    if reply.Reply? && reply.body.Word? then reply.body.word else 0
  }

  function WithModel(d: Direct, id: uint32, name: Name): Direct {
    d.(models := d.models[id := name])
  }

  function WithoutModel(d: Direct, name: Name): Direct {
    d.(models := map id | id in d.models && d.models[id] != name :: d.models[id])
  }

  function WithHandle(d: Direct, id: uint32, handle: Handle): Direct {
    d.(handles := d.handles[id := handle])
  }

  function WithoutHandle(d: Direct, id: uint32): Direct {
    d.(handles := d.handles - {id})
  }

  ghost function Calling(ch: Choices, d: Direct, call: BackendCall): Direct {
    d.(backend := After(ch, d.backend, call))
  }

  /** What the direct caller has after the request: the backend after the call, and its ids. */
  ghost function DirectlyAfter(ch: Choices, d: Direct, req: Request, reply: Reply): Direct {
    match req
    case CreateModel(name) =>
      if name in d.models.Values then d
      else if ch.opens(name) then WithModel(Calling(ch, d, OpenCall(name)), IdIn(reply), name)
      else Calling(ch, d, OpenCall(name))
    case RemoveModel(name) => WithoutModel(Calling(ch, d, DropCall(name)), name)
    case _ => AfterCall(ch, d, Intended(d, req), req, reply)
  }

  ghost function AfterCall(ch: Choices, d: Direct, call: Option<BackendCall>, req: Request, reply: Reply): Direct {
    match call
    case None => d
    case Some(call) =>
      match NewCursor(ch, d.backend, call)
      case Some(cursor) => WithHandle(Calling(ch, d, call), IdIn(reply), Handle(KindOpened(req), cursor))
      case None =>
        if req.IteratorClose? then WithoutHandle(Calling(ch, d, call), req.iterator_) else Calling(ch, d, call)
  }

  // The iterator that the call opens.
  function NewCursor(ch: Choices, b: Backend, call: BackendCall): Option<Cursor> {
    match ValueOf(ch, b, call) case Iterates(cursor) => cursor case _ => None
  }

  // ----- What the server's tables stand for -----

  function HandlesOf(t: Tables): map<uint32, Handle> {
    map id | id in OpenIds(t) ::
      if id in t.statements then Handle(OfStatements, t.statements[id])
      else if id in t.nodes then Handle(OfNodes, t.nodes[id])
      else Handle(OfQuery, t.queries[id])
  }

  ghost function DirectOf(ch: Choices, b: Backend, sv: ServerState): Direct {
    Direct(BackendAt(ch, b, sv.journal), sv.pool.ids, HandlesOf(sv.tables))
  }

  // The server keeps its ids apart; and no model has the id that unknown names read as, unless the name is known.
  ghost predicate InOrder(sv: ServerState, req: Request) {
    && Disjoint(sv.tables) && Consistent(sv.pool)
    && (req.RemoveModel? ==> req.name in sv.pool.names || 0 !in sv.pool.ids)
  }

  // What was called is answered as the backend does.
  ghost predicate AnsweredBy(ch: Choices, b: Backend, sv: ServerState, sv': ServerState, ans: Answer) {
    forall call | sv'.journal == sv.journal + [call] :: Truthful(ch, BackendAt(ch, b, sv.journal), call, ans)
  }

  // ----- One request -----

  // The call that a command on an id makes at the server, if its id is known there.
  ghost function CalledFor(sv: ServerState, req: Request): Option<BackendCall>
    requires NamesModel(req) || NamesIterator(req)
  {
    if NamesModel(req) then
      if req.model in sv.pool.ids then Some(ModelCall(sv.pool.ids[req.model], req)) else None
    else match CursorOf(sv.tables, req) case Some(cursor) => Some(IteratorCall(cursor, req)) case None => None
  }

  lemma CalledAsIntended(ch: Choices, b: Backend, sv: ServerState, req: Request)
    requires Disjoint(sv.tables) && (NamesModel(req) || NamesIterator(req))
    ensures CalledFor(sv, req) == Intended(DirectOf(ch, b, sv), req)
  {
    hide BackendAt;
  }

  lemma ModelValueIsShown(lex: Lexicon, ch: Choices, b: Backend, d: Direct, req: Request, model: Name, ans: Answer)
    requires NamesModel(req) && TableOf(req).None? && Truthful(ch, b, ModelCall(model, req), ans)
    ensures Shows(lex, d, NormalBody(lex, BodyOf(req, ans)), ValueOf(ch, b, ModelCall(model, req)))
  {
    hide NormalNode, NormalStatement, NormalBindings, StatementMatches;
  }

  lemma IteratorValueIsShown(lex: Lexicon, ch: Choices, b: Backend, d: Direct, req: Request, cursor: Cursor,
                             ans: Answer)
    requires NamesIterator(req) && Truthful(ch, b, IteratorCall(cursor, req), ans)
    ensures Shows(lex, d, NormalBody(lex, BodyOf(req, ans)), ValueOf(ch, b, IteratorCall(cursor, req)))
  {
    hide NormalNode, NormalStatement, NormalBindings, StatementMatches, RowsOf;
  }

  lemma RefusalIsSeen(lex: Lexicon, req: Request, error: Error)
    requires NamesModel(req) || NamesIterator(req)
    requires error == INVALID_MODEL || error == INVALID_ITERATOR
    ensures var reply := NormalReply(lex, Reply(RefusedBody(req), error));
            Refused(reply) && Fits(ShapeOf(req), reply)
  {
  }

  ghost predicate Stepping(ch: Choices, b: Backend, sv: ServerState, req: Request, ans: Answer) {
    CanDraw(sv, ans) && InOrder(sv, req) && AnsweredBy(ch, b, sv, Perform(sv, req, ans).0, ans)
  }

  lemma JournalGrows(ch: Choices, b: Backend, journal: seq<BackendCall>, call: BackendCall)
    ensures BackendAt(ch, b, journal + [call]) == After(ch, BackendAt(ch, b, journal), call)
  {
    hide After;
    assert (journal + [call])[..|journal|] == journal;
  }

  function KindIn(table: Table): HandleKind {
    match table case Statements => OfStatements case Nodes => OfNodes case Queries => OfQuery
  }

  lemma HandlesAfterMapping(t: Tables, table: Table, id: uint32, cursor: Cursor)
    requires id !in OpenIds(t)
    ensures HandlesOf(Mapped(t, table, id, cursor)) ==
            HandlesOf(t)[id := Handle(KindIn(table), cursor)]
  {
  }

  lemma HandleIds(t: Tables)
    ensures HandlesOf(t).Keys == OpenIds(t)
  {
  }

  lemma HandlesAfterClosing(t: Tables, id: uint32)
    requires Disjoint(t)
    ensures HandlesOf(Closed(t, id)) == HandlesOf(t) - {id}
  {
    CloseRemovesOne(t, id);
  }

  // A command on an id is seen as it should be, and leaves what it should.
  ghost predicate CallCommutes(lex: Lexicon, ch: Choices, b: Backend, sv: ServerState, req: Request, ans: Answer)
    requires CanDraw(sv, ans)
  {
    var (sv', reply) := Perform(sv, req, ans);
    var d, got := DirectOf(ch, b, sv), NormalReply(lex, reply);
    var call := Intended(d, req);
    SeenCall(lex, ch, d, call, ShapeOf(req), got) && AfterCall(ch, d, call, req, got) == DirectOf(ch, b, sv')
  }

  lemma PlainCallCommutes(lex: Lexicon, ch: Choices, b: Backend, sv: ServerState, req: Request, ans: Answer)
    requires Stepping(ch, b, sv, req, ans) && NamesModel(req) && TableOf(req).None? && req.model in sv.pool.ids
    ensures CallCommutes(lex, ch, b, sv, req, ans)
  {
    hide BodyOf, RefusedBody, Intended, NormalBody, NormalError, Shows, HandlesOf, BackendAt, After, Truthful, ValueOf,
         CanDraw, ModelCall;
    var d := DirectOf(ch, b, sv);
    CalledAsIntended(ch, b, sv, req);
    var model := sv.pool.ids[req.model];
    var call := ModelCall(model, req);
    assert Perform(sv, req, ans).0.journal == sv.journal + [call];
    ModelErrorIsPassedOn(ch, d.backend, req, model, ans);
    NoNewCursor(ch, d.backend, req, model);
    ModelValueIsShown(lex, ch, d.backend, d, req, model, ans);
    JournalGrows(ch, b, sv.journal, call);
  }

  lemma ModelErrorIsPassedOn(ch: Choices, b: Backend, req: Request, model: Name, ans: Answer)
    requires NamesModel(req) && Truthful(ch, b, ModelCall(model, req), ans)
    ensures ans.error == ch.fault(ModelCall(model, req))
  {
    hide ValueOf;
  }

  lemma NoNewCursor(ch: Choices, b: Backend, req: Request, model: Name)
    requires NamesModel(req) && TableOf(req).None?
    ensures NewCursor(ch, b, ModelCall(model, req)).None?
  {
    hide StatementMatches;
  }

  lemma OpeningCallCommutes(lex: Lexicon, ch: Choices, b: Backend, sv: ServerState, req: Request, ans: Answer)
    requires Stepping(ch, b, sv, req, ans) && NamesModel(req) && TableOf(req).Some? && req.model in sv.pool.ids
    ensures CallCommutes(lex, ch, b, sv, req, ans)
  {
    hide BodyOf, RefusedBody, Intended, NormalError, HandlesOf, BackendAt, After, Truthful, ValueOf,
         CanDraw, ModelCall, Mapped;
    var d := DirectOf(ch, b, sv);
    CalledAsIntended(ch, b, sv, req);
    var model := sv.pool.ids[req.model];
    var call := ModelCall(model, req);
    assert Perform(sv, req, ans).0.journal == sv.journal + [call];
    ModelErrorIsPassedOn(ch, d.backend, req, model, ans);
    JournalGrows(ch, b, sv.journal, call);
    CursorIsPassedOn(ch, d.backend, req, model, ans);
    if ans.cursor.Some? {
      var id := FirstFresh(OpenIds(sv.tables), ans.iteratorDraws);
      HandlesAfterMapping(sv.tables, TableOf(req).value, id, ans.cursor.value);
      assert id !in OpenIds(sv.tables);
      HandleIds(sv.tables);
    }
  }

  lemma CursorIsPassedOn(ch: Choices, b: Backend, req: Request, model: Name, ans: Answer)
    requires NamesModel(req) && TableOf(req).Some? && Truthful(ch, b, ModelCall(model, req), ans)
    ensures ValueOf(ch, b, ModelCall(model, req)) == Iterates(ans.cursor)
  {
  }

  lemma IteratorCallCommutes(lex: Lexicon, ch: Choices, b: Backend, sv: ServerState, req: Request, ans: Answer)
    requires Stepping(ch, b, sv, req, ans) && NamesIterator(req) && CursorOf(sv.tables, req).Some?
    ensures CallCommutes(lex, ch, b, sv, req, ans)
  {
    hide BodyOf, RefusedBody, Intended, NormalBody, NormalError, Shows, HandlesOf, BackendAt, After, Truthful, ValueOf,
         CanDraw, IteratorCall, Closed, CursorOf;
    var d := DirectOf(ch, b, sv);
    CalledAsIntended(ch, b, sv, req);
    var cursor := CursorOf(sv.tables, req).value;
    var call := IteratorCall(cursor, req);
    assert Perform(sv, req, ans).0.journal == sv.journal + [call];
    IteratorErrorIsPassedOn(ch, d.backend, req, cursor, ans);
    IteratorValueIsShown(lex, ch, d.backend, d, req, cursor, ans);
    JournalGrows(ch, b, sv.journal, call);
    if req.IteratorClose? { HandlesAfterClosing(sv.tables, req.iterator_); }
  }

  lemma IteratorErrorIsPassedOn(ch: Choices, b: Backend, req: Request, cursor: Cursor, ans: Answer)
    requires NamesIterator(req) && Truthful(ch, b, IteratorCall(cursor, req), ans)
    ensures ans.error == ch.fault(IteratorCall(cursor, req)) && NewCursor(ch, b, IteratorCall(cursor, req)).None?
  {
  }

  lemma RefusalCommutes(lex: Lexicon, ch: Choices, b: Backend, sv: ServerState, req: Request, ans: Answer)
    requires Stepping(ch, b, sv, req, ans)
    requires if NamesModel(req) then req.model !in sv.pool.ids else NamesIterator(req) && CursorOf(sv.tables, req).None?
    ensures CallCommutes(lex, ch, b, sv, req, ans)
  {
    hide BodyOf, RefusedBody, Intended, NormalReply, Refused, HandlesOf, BackendAt, CanDraw, CursorOf, ShapeOf, Fits;
    CalledAsIntended(ch, b, sv, req);
    RefusalIsSeen(lex, req, if NamesModel(req) then INVALID_MODEL else INVALID_ITERATOR);
  }

  lemma ModelCommandIsSeen(lex: Lexicon, ch: Choices, b: Backend, sv: ServerState, req: Request, ans: Answer)
    requires Stepping(ch, b, sv, req, ans) && (req.CreateModel? || req.RemoveModel?)
    ensures var (sv', reply) := Perform(sv, req, ans);
            && SeenDirectly(lex, ch, DirectOf(ch, b, sv), req, NormalReply(lex, reply))
            && DirectlyAfter(ch, DirectOf(ch, b, sv), req, NormalReply(lex, reply)) == DirectOf(ch, b, sv')
  {
    hide BackendAt, After, HandlesOf, OpenIds, SeenCall, AfterCall, OnModel, OnIterator, RefusedBody, BodyOf, CursorOf,
         HasFresh;
    if req.CreateModel? {
      JournalGrows(ch, b, sv.journal, OpenCall(req.name));
    } else {
      JournalGrows(ch, b, sv.journal, DropCall(req.name));
    }
  }

  lemma ServerCommandIsSeen(lex: Lexicon, ch: Choices, b: Backend, sv: ServerState, req: Request, ans: Answer)
    requires Stepping(ch, b, sv, req, ans) && (req.SupportedFeatures? || req.SupportsProtocolVersion?)
    ensures var (sv', reply) := Perform(sv, req, ans);
            && SeenDirectly(lex, ch, DirectOf(ch, b, sv), req, NormalReply(lex, reply))
            && DirectlyAfter(ch, DirectOf(ch, b, sv), req, NormalReply(lex, reply)) == DirectOf(ch, b, sv')
  {
    hide BackendAt, After, HandlesOf, OpenIds, SeenCall, OnModel, OnIterator, RefusedBody, BodyOf, CursorOf, HasFresh,
         Opened, Removed;
    if req.SupportedFeatures? {
      JournalGrows(ch, b, sv.journal, FeaturesCall);
      FeaturesChangeNothing(ch, BackendAt(ch, b, sv.journal));
    }
  }

  lemma FeaturesChangeNothing(ch: Choices, b: Backend)
    ensures After(ch, b, FeaturesCall) == b
  {
  }

  /**
   If what was called is answered as the backend does, the client's reply to any request is what the direct caller
   sees, and what the ids stand for afterwards is what the direct caller has.
   */
  lemma RequestIsTransparent(lex: Lexicon, ch: Choices, b: Backend, sv: ServerState, req: Request, ans: Answer)
    requires Stepping(ch, b, sv, req, ans)
    ensures var (sv', reply) := Perform(sv, req, ans);
            && SeenDirectly(lex, ch, DirectOf(ch, b, sv), req, NormalReply(lex, reply))
            && DirectlyAfter(ch, DirectOf(ch, b, sv), req, NormalReply(lex, reply)) == DirectOf(ch, b, sv')
  {
    hide Perform, NormalReply, SeenCall, AfterCall, Stepping, DirectOf, ShapeOf, Intended, CanDraw;
    assert CanDraw(sv, ans) by { Stands(ch, b, sv, req, ans); }
    if NamesModel(req) || NamesIterator(req) {
      CallOnIdCommutes(lex, ch, b, sv, req, ans);
    } else if req.CreateModel? || req.RemoveModel? {
      ModelCommandIsSeen(lex, ch, b, sv, req, ans);
    } else {
      ServerCommandIsSeen(lex, ch, b, sv, req, ans);
    }
  }

  lemma CallOnIdCommutes(lex: Lexicon, ch: Choices, b: Backend, sv: ServerState, req: Request, ans: Answer)
    requires CanDraw(sv, ans) && Stepping(ch, b, sv, req, ans) && (NamesModel(req) || NamesIterator(req))
    ensures CallCommutes(lex, ch, b, sv, req, ans)
  {
    hide Perform, CallCommutes, Stepping, CursorOf, CanDraw;
    if if NamesModel(req) then req.model !in sv.pool.ids else CursorOf(sv.tables, req).None? {
      RefusalCommutes(lex, ch, b, sv, req, ans);
    } else if NamesIterator(req) {
      IteratorCallCommutes(lex, ch, b, sv, req, ans);
    } else if TableOf(req).None? {
      PlainCallCommutes(lex, ch, b, sv, req, ans);
    } else {
      OpeningCallCommutes(lex, ch, b, sv, req, ans);
    }
  }

  lemma Stands(ch: Choices, b: Backend, sv: ServerState, req: Request, ans: Answer)
    requires Stepping(ch, b, sv, req, ans)
    ensures CanDraw(sv, ans) && Disjoint(sv.tables) && Consistent(sv.pool)
  {
    hide CanDraw, Disjoint, Consistent;
  }

  lemma PerformKeepsOrder(sv: ServerState, req: Request, ans: Answer)
    requires CanDraw(sv, ans) && InOrder(sv, req)
    ensures Disjoint(Perform(sv, req, ans).0.tables) && Consistent(Perform(sv, req, ans).0.pool)
  {
    hide Disjoint, Consistent, HasFresh, OpenIds, BodyOf, RefusedBody, CursorOf, Opened, Removed;
    PerformKeepsDisjoint(sv, req, ans);
    match req {
      case CreateModel(name) => OpenKeepsConsistent(sv.pool, name, ans.modelOpens, ans.modelDraws);
      case RemoveModel(name) => RemoveKeepsConsistent(sv.pool, name);
      case _ => BackendIsAskedOnce(sv, req, ans);
    }
  }

  // ----- Sessions -----

  /** What the backend was asked during the session, it answered; and no unknown model is removed while one has id 0. */
  ghost predicate Answered(lex: Lexicon, ch: Choices, b: Backend, sv: ServerState, session: seq<Exchange>)
    requires Live(lex, sv, session)
    decreases |session|
  {
    session == [] ||
    var req, ans := NormalRequest(lex, session[0].request), session[0].answer;
    var sv' := Perform(sv, req, ans).0;
    && (req.RemoveModel? ==> req.name in sv.pool.names || 0 !in sv.pool.ids)
    && AnsweredBy(ch, b, sv, sv', ans) && Answered(lex, ch, b, sv', session[1..])
  }

  /** Every reply arrives, and is what a direct caller with d sees who makes the same requests. */
  ghost predicate SeenThroughout(lex: Lexicon, ch: Choices, d: Direct, session: seq<Exchange>,
                                 replies: seq<Option<Reply>>)
    decreases |session|
  {
    |replies| == |session| &&
    (session != [] ==>
       var req := NormalRequest(lex, session[0].request);
       && replies[0].Some? && SeenDirectly(lex, ch, d, req, replies[0].value)
       && SeenThroughout(lex, ch, DirectlyAfter(ch, d, req, replies[0].value), session[1..], replies[1..]))
  }

  lemma {:induction false} PerformedAsSeen(lex: Lexicon, ch: Choices, b: Backend, sv: ServerState,
                                           session: seq<Exchange>)
    requires Live(lex, sv, session) && Answered(lex, ch, b, sv, session)
    requires Disjoint(sv.tables) && Consistent(sv.pool)
    ensures SeenThroughout(lex, ch, DirectOf(ch, b, sv), session, PerformAll(lex, sv, session).1)
    decreases |session|
  {
    hide Perform, NormalRequest, NormalReply, SeenDirectly, DirectlyAfter, DirectOf, AnsweredBy, Disjoint, Consistent,
         Aligned, CanDraw;
    if session != [] {
      var req, ans := NormalRequest(lex, session[0].request), session[0].answer;
      RequestIsTransparent(lex, ch, b, sv, req, ans);
      PerformKeepsOrder(sv, req, ans);
      PerformedAsSeen(lex, ch, b, Perform(sv, req, ans).0, session[1..]);
    }
  }

  /**
   Over every aligned session the client gets, request by request, what direct calls on the backend give: the bytes
   on the wire, the ids and the tables make no difference.
   */
  lemma SessionIsTransparent(lex: Lexicon, ch: Choices, b: Backend, sv: ServerState, session: seq<Exchange>)
    requires Runnable(lex, Wire(sv, [], []), session)
    requires Live(lex, sv, session) && Answered(lex, ch, b, sv, session)
    requires Disjoint(sv.tables) && Consistent(sv.pool)
    ensures SeenThroughout(lex, ch, DirectOf(ch, b, sv), session, Run(lex, Wire(sv, [], []), session).1)
  {
    hide Run, PerformAll, SeenThroughout, Disjoint, Consistent, DirectOf;
    SessionAlignment(lex, sv, session);
    PerformedAsSeen(lex, ch, b, sv, session);
  }

  /** A connection to a server without models starts with no ids at all. */
  lemma FirstSessionIsTransparent(lex: Lexicon, ch: Choices, b: Backend, session: seq<Exchange>)
    requires var sv := ServerState(EMPTY_POOL, Tables(map[], map[], map[]), [], true);
             Runnable(lex, Wire(sv, [], []), session) && Live(lex, sv, session) && Answered(lex, ch, b, sv, session)
    ensures var sv := ServerState(EMPTY_POOL, Tables(map[], map[], map[]), [], true);
            SeenThroughout(lex, ch, Direct(b, map[], map[]), session, Run(lex, Wire(sv, [], []), session).1)
  {
    hide Run, SeenThroughout, Runnable, Live, Answered;
    var sv := ServerState(EMPTY_POOL, Tables(map[], map[], map[]), [], true);
    assert DirectOf(ch, b, sv) == Direct(b, map[], map[]);
    SessionIsTransparent(lex, ch, b, sv, session);
  }
}
