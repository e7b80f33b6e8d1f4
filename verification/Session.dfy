/**
 Whole sessions over one connection: the two streams stay aligned, and the client models agree with the
 server on the open iterators.
 */
module Sessions {
  import opened Wrappers
  import opened Bytes
  import opened Rdf
  import opened BindingSets
  import opened Codec
  import opened Protocol
  import opened ModelPools
  import opened Server
  import opened ClientConnections

  // ----- Alignment -----

  datatype Exchange = Exchange(request: Request, answer: Answer)

  /** The server, and the bytes that were written and not yet read in each direction. */
  datatype Wire = Wire(server: ServerState, toServer: seq<byte>, toClient: seq<byte>)

  // The client writes the request, the server reads and serves one command, the client reads one reply.
  function Next(lex: Lexicon, w: Wire, e: Exchange): (Wire, Option<Reply>)
    requires CanDraw(w.server, e.answer) && ValidAnswer(e.answer)
  {
    var (sv, unread, written) := Serve(lex, w.server, w.toServer + EncodeRequest(e.request), e.answer);
    match DecodeReply(lex, ShapeOf(e.request), w.toClient + written)
    case Got(reply, rest) => (Wire(sv, unread, rest), Some(reply))
    case Short => (Wire(sv, unread, []), None)
  }

  ghost predicate Runnable(lex: Lexicon, w: Wire, session: seq<Exchange>)
    decreases |session|
  {
    session == [] ||
    var e := session[0];
    ValidRequest(e.request) && Plausible(w.server, e.answer) && Runnable(lex, Next(lex, w, e).0, session[1..])
  }

  ghost function Run(lex: Lexicon, w: Wire, session: seq<Exchange>): (Wire, seq<Option<Reply>>)
    requires Runnable(lex, w, session)
    decreases |session|
  {
    if session == [] then (w, [])
    else
      var (w', reply) := Next(lex, w, session[0]);
      var (w'', replies) := Run(lex, w', session[1..]);
      (w'', [reply] + replies)
  }

  ghost predicate Quiet(w: Wire) {
    w.toServer == [] && w.toClient == []
  }

  /**
   The exchange is as it should be: the server has performed the request as it reads it, the client got the reply
   as it reads it, and nothing is left over in either direction.
   */
  ghost predicate Exact(lex: Lexicon, w: Wire, e: Exchange)
    requires CanDraw(w.server, e.answer) && ValidAnswer(e.answer)
  {
    var (sv, reply) := Perform(w.server, NormalRequest(lex, e.request), e.answer);
    Next(lex, w, e) == (Wire(sv, [], []), Some(NormalReply(lex, reply)))
  }

  // Every exchange of the session is as it should be.
  ghost predicate AlwaysExact(lex: Lexicon, w: Wire, session: seq<Exchange>)
    requires Runnable(lex, w, session)
    decreases |session|
  {
    session == [] || (Exact(lex, w, session[0]) && AlwaysExact(lex, Next(lex, w, session[0]).0, session[1..]))
  }

  /** No command with a payload names a dead model, and no binding set that is sent repeats a name. */
  ghost predicate Live(lex: Lexicon, sv: ServerState, session: seq<Exchange>)
    decreases |session|
  {
    session == [] ||
    var e := session[0];
    && CanDraw(sv, e.answer) && Aligned(sv, e.request, e.answer)
    && Live(lex, Perform(sv, NormalRequest(lex, e.request), e.answer).0, session[1..])
  }

  /** What the session means: the requests performed one after the other. */
  ghost function PerformAll(lex: Lexicon, sv: ServerState, session: seq<Exchange>): (ServerState, seq<Option<Reply>>)
    requires Live(lex, sv, session)
    decreases |session|
  {
    if session == [] then (sv, [])
    else
      var (sv', reply) := Perform(sv, NormalRequest(lex, session[0].request), session[0].answer);
      var (sv'', replies) := PerformAll(lex, sv', session[1..]);
      (sv'', [Some(NormalReply(lex, reply))] + replies)
  }

  // What the server does on quiet streams, and what it leaves unread.
  lemma NextIsServed(lex: Lexicon, sv: ServerState, e: Exchange)
    requires ValidRequest(e.request) && Plausible(sv, e.answer)
    ensures var (w, got) := Next(lex, Wire(sv, [], []), e);
            var (sv', reply) := Perform(sv, NormalRequest(lex, e.request), e.answer);
            && w.server == sv' && Expected(NormalRequest(lex, e.request), reply)
            && w.toServer == (if Strands(sv, e.request) then EncodePayload(e.request) else [])
            && match DecodeReply(lex, ShapeOf(e.request), EncodeReply(reply))
               case Got(r, rest) => got == Some(r) && w.toClient == rest
               case Short => got == None && w.toClient == []
  {
    hide Serve, EncodeRequest, Perform, NormalRequest, EncodeReply, DecodeReply, Fits, ValidReply, Strands,
         ValidRequest, CanDraw, ValidAnswer, Coherent, ShapeOf, EncodePayload;
    var reply := Perform(sv, NormalRequest(lex, e.request), e.answer).1;
    assert [] + EncodeRequest(e.request) == EncodeRequest(e.request) + [];
    ServeRequest(lex, sv, e.request, e.answer, []);
    assert EncodePayload(e.request) + [] == EncodePayload(e.request);
    PerformReplies(sv, NormalRequest(lex, e.request), e.answer);
    assert [] + EncodeReply(reply) == EncodeReply(reply);
  }

  /**
   On quiet streams an exchange is as it should be if and only if it is no payload command on a dead model and no
   binding set with a repeated name is sent.
   */
  lemma ExactlyIfAligned(lex: Lexicon, sv: ServerState, e: Exchange)
    requires ValidRequest(e.request) && Plausible(sv, e.answer)
    ensures Exact(lex, Wire(sv, [], []), e) <==> Aligned(sv, e.request, e.answer)
  {
    hide Next, Perform, NormalRequest, NormalReply, EncodeReply, DecodeReply, Faithful, Fits, ValidReply, Strands,
         Garbles, ValidRequest, CanDraw, ValidAnswer, Coherent, Distinct, ShapeOf, EncodePayload;
    var req := NormalRequest(lex, e.request);
    var reply := Perform(sv, req, e.answer).1;
    NextIsServed(lex, sv, e);
    PerformReplies(sv, req, e.answer);
    NormalKeepsShape(lex, e.request);
    NormalKeepsGarbling(sv, lex, e.request, e.answer);
    if Strands(sv, e.request) {
      assert EncodePayload(e.request) != [] by { StrandedIsPayload(sv, e.request); }
    } else if Garbles(sv, e.request, e.answer) {
      GarbledReply(lex, sv, req, e.answer);
    } else {
      ReplyRoundTrip(lex, ShapeOf(e.request), reply, []);
      assert EncodeReply(reply) + [] == EncodeReply(reply);
    }
  }

  lemma StrandedIsPayload(sv: ServerState, req: Request)
    requires Strands(sv, req)
    ensures EncodePayload(req) != []
  {
    EmptyPayload(req);
  }

  lemma GarbledReply(lex: Lexicon, sv: ServerState, req: Request, ans: Answer)
    requires CanDraw(sv, ans) && ValidAnswer(ans) && Coherent(ans.bindings) && Garbles(sv, req, ans)
    requires ValidReply(Perform(sv, req, ans).1)
    ensures var reply := Perform(sv, req, ans).1;
            DecodeReply(lex, ShapeOf(req), EncodeReply(reply)) != Got(NormalReply(lex, reply), [])
  {
    hide EncodeReply, DecodeReply, NormalReply, CanDraw, Coherent, Distinct, Count, ValidBindings, Ascii;
    RepeatedNameGarbles(lex, ans.bindings, ans.error);
  }

  /**
   Every exchange of a session is as it should be if and only if no payload command names a dead model and no
   binding set that is sent repeats a name; the session is then its requests performed in order.
   */
  lemma {:induction false} SessionAlignment(lex: Lexicon, sv: ServerState, session: seq<Exchange>)
    requires Runnable(lex, Wire(sv, [], []), session)
    ensures AlwaysExact(lex, Wire(sv, [], []), session) <==> Live(lex, sv, session)
    ensures Live(lex, sv, session) ==>
              var (sv', replies) := PerformAll(lex, sv, session);
              Run(lex, Wire(sv, [], []), session) == (Wire(sv', [], []), replies)
    decreases |session|
  {
    hide Next, Perform, NormalRequest, NormalReply, Aligned, ValidRequest, ValidAnswer, Coherent, CanDraw;
    if session != [] {
      var e := session[0];
      ExactlyIfAligned(lex, sv, e);
      if Aligned(sv, e.request, e.answer) {
        SessionAlignment(lex, Perform(sv, NormalRequest(lex, e.request), e.answer).0, session[1..]);
      }
    }
  }

  // What the requests of a session ask of the backend, in order.
  ghost function AllAsked(lex: Lexicon, sv: ServerState, session: seq<Exchange>): seq<BackendCall>
    requires Live(lex, sv, session)
    decreases |session|
  {
    if session == [] then []
    else
      var req := NormalRequest(lex, session[0].request);
      Asked(sv, req) + AllAsked(lex, Perform(sv, req, session[0].answer).0, session[1..])
  }

  /** Over a session the backend is asked for every request on a live model, once and in order. */
  lemma {:induction false} BackendSeesTheSession(lex: Lexicon, sv: ServerState, session: seq<Exchange>)
    requires Live(lex, sv, session)
    ensures PerformAll(lex, sv, session).0.journal == sv.journal + AllAsked(lex, sv, session)
    decreases |session|
  {
    hide Perform, NormalRequest, Asked, Aligned, NormalReply;
    if session != [] {
      var req := NormalRequest(lex, session[0].request);
      BackendIsAskedOnce(sv, req, session[0].answer);
      BackendSeesTheSession(lex, Perform(sv, req, session[0].answer).0, session[1..]);
    }
  }

  // Commands served one after the other, whatever bytes are there each time.
  ghost predicate Served(lex: Lexicon, sv: ServerState, inputs: seq<(seq<byte>, Answer)>, sv': ServerState)
    decreases |inputs|
  {
    if inputs == [] then sv' == sv
    else
      && CanDraw(sv, inputs[0].1) && ValidAnswer(inputs[0].1)
      && Served(lex, Serve(lex, sv, inputs[0].0, inputs[0].1).0, inputs[1..], sv')
  }

  /** In every state a connection can reach, an id denotes at most one open iterator. */
  lemma {:induction false} IdsAreUnambiguous(lex: Lexicon, sv: ServerState, inputs: seq<(seq<byte>, Answer)>,
                                             sv': ServerState)
    requires Served(lex, sv, inputs, sv') && Disjoint(sv.tables)
    ensures Disjoint(sv'.tables)
    decreases |inputs|
  {
    hide Serve, Disjoint;
    if inputs != [] {
      ServeKeepsDisjoint(lex, sv, inputs[0].0, inputs[0].1);
      IdsAreUnambiguous(lex, Serve(lex, sv, inputs[0].0, inputs[0].1).0, inputs[1..], sv');
    }
  }

  // ----- Iterator agreement -----

  /** What is on the wire, and the open list of every client model on the connection. */
  datatype World = World(wire: Wire, models: map<nat, seq<uint32>>)

  datatype Event =
    | Create(model: nat)
    | Call(model: nat, request: Request, answer: Answer)
    | CloseIterator(model: nat, id: uint32, answer: Answer)
    | Destroy(model: nat, answers: seq<Answer>)

  // The model appends the id of a new iterator if it is greater than 0 as a signed integer.
  function Recorded(list: seq<uint32>, req: Request, reply: Reply): seq<uint32> {
    if TableOf(req).Some? && reply.Reply? && reply.body.Word? && 0 < reply.body.word < 0x8000_0000
    then list + [reply.body.word] else list
  }

  // QList::removeAll
  function Without(list: seq<uint32>, id: uint32): (r: seq<uint32>)
    ensures forall other :: other in r <==> other in list && other != id
  {
    if list == [] then []
    else (if list[0] == id then [] else [list[0]]) + Without(list[1..], id)
  }

  function CloseAll(t: Tables, ids: seq<uint32>): Tables {
    if ids == [] then t else Closed(CloseAll(t, ids[..|ids| - 1]), ids[|ids| - 1])
  }

  // The server after closing the iterators one by one.
  function AfterClosing(sv: ServerState, ids: seq<uint32>): (r: ServerState)
    ensures r.tables == CloseAll(sv.tables, ids) && r.pool == sv.pool && r.open == sv.open
  {
    if ids == [] then sv
    else
      var before, id := AfterClosing(sv, ids[..|ids| - 1]), ids[|ids| - 1];
      before.(tables := Closed(before.tables, id), journal := before.journal + Asked(before, IteratorClose(id)))
  }

  // The iterators are closed over the wire, one after the other.
  ghost predicate Closable(lex: Lexicon, w: Wire, ids: seq<uint32>, answers: seq<Answer>)
    decreases |ids|, 0
  {
    |answers| == |ids| &&
    (ids != [] ==>
       var n := |ids| - 1;
       && Closable(lex, w, ids[..n], answers[..n])
       && Plausible(ClosedOver(lex, w, ids[..n], answers[..n]).server, answers[n]))
  }

  ghost function ClosedOver(lex: Lexicon, w: Wire, ids: seq<uint32>, answers: seq<Answer>): Wire
    requires Closable(lex, w, ids, answers)
    decreases |ids|, 1
  {
    if ids == [] then w
    else
      var n := |ids| - 1;
      Next(lex, ClosedOver(lex, w, ids[..n], answers[..n]), Exchange(IteratorClose(ids[n]), answers[n])).0
  }

  ghost predicate Possible(lex: Lexicon, w: World, e: Event) {
    match e
    case Create(m) => m !in w.models
    case Call(m, req, ans) =>
      m in w.models && !req.IteratorClose? && ValidRequest(req) && Plausible(w.wire.server, ans)
    case CloseIterator(m, _, ans) => m in w.models && Plausible(w.wire.server, ans)
    case Destroy(m, answers) => m in w.models && Closable(lex, w.wire, w.models[m], answers)
  }

  /** What the bytes of the exchanges make of the server, and the replies of the lists. */
  ghost function Happen(lex: Lexicon, w: World, e: Event): World
    requires Possible(lex, w, e)
  {
    match e
    case Create(m) => w.(models := w.models[m := []])
    case Call(m, req, ans) =>
      var (wire, reply) := Next(lex, w.wire, Exchange(req, ans));
      var list := w.models[m];
      World(wire, w.models[m := if reply.Some? then Recorded(list, req, reply.value) else list])
    case CloseIterator(m, id, ans) =>
      if id in w.models[m]
      then World(Next(lex, w.wire, Exchange(IteratorClose(id), ans)).0, w.models[m := Without(w.models[m], id)])
      else w
    case Destroy(m, answers) => World(ClosedOver(lex, w.wire, w.models[m], answers), w.models - {m})
  }

  // Closings are always aligned.
  ghost predicate AlignedEvent(w: World, e: Event) {
    e.Call? ==> Aligned(w.wire.server, e.request, e.answer)
  }

  predicate Owns(models: map<nat, seq<uint32>>, m: nat, id: uint32) {
    m in models && id in models[m]
  }

  /** The open lists are disjoint, and their union is the set of non-zero ids open at the server. */
  ghost predicate Agree(t: Tables, models: map<nat, seq<uint32>>) {
    && Disjoint(t)
    && (forall m, id | Owns(models, m, id) :: id != 0 && id in OpenIds(t))
    && (forall m, m', id | Owns(models, m, id) && Owns(models, m', id) :: m == m')
    && (forall id | id in OpenIds(t) && id != 0 :: exists m :: Owns(models, m, id))
  }

  ghost predicate Agreed(w: World) {
    Quiet(w.wire) && Agree(w.wire.server.tables, w.models)
  }

  lemma {:induction false} CloseAllRemovesExactly(t: Tables, ids: seq<uint32>)
    requires Disjoint(t)
    ensures Disjoint(CloseAll(t, ids)) && OpenIds(CloseAll(t, ids)) == OpenIds(t) - (set id | id in ids)
    decreases |ids|
  {
    hide Disjoint, OpenIds, Closed;
    if ids != [] {
      var front, last := ids[..|ids| - 1], ids[|ids| - 1];
      CloseAllRemovesExactly(t, front);
      CloseRemovesOne(CloseAll(t, front), last);
      assert ids == front + [last];
    }
  }

  // The iterator a call opens, if any.
  function OpenedId(sv: ServerState, req: Request, ans: Answer): Option<uint32>
    requires CanDraw(sv, ans)
  {
    if TableOf(req).Some? && req.model in sv.pool.ids && ans.cursor.Some?
    then Some(FirstFresh(OpenIds(sv.tables), ans.iteratorDraws)) else None
  }

  lemma CallOpensAtMostOne(sv: ServerState, req: Request, ans: Answer, list: seq<uint32>)
    requires CanDraw(sv, ans) && !req.IteratorClose? && Disjoint(sv.tables)
    ensures var (sv', reply) := Perform(sv, req, ans);
            match OpenedId(sv, req, ans)
            case None => sv'.tables == sv.tables && Recorded(list, req, reply) == list
            case Some(id) =>
              && id !in OpenIds(sv.tables) && OpenIds(sv'.tables) == OpenIds(sv.tables) + {id}
              && Recorded(list, req, reply) == if id == 0 then list else list + [id]
  {
    hide OpenIds, Disjoint, Mapped, Closed, BodyOf, RefusedBody, CursorOf, Opened, Removed;
    if TableOf(req).Some? {
      RefusedOpeningsAreZero(req);
      if req.model in sv.pool.ids && ans.cursor.Some? {
        MapKeepsDisjoint(sv.tables, TableOf(req).value, OpenedId(sv, req, ans).value, ans.cursor.value);
      }
    }
  }

  lemma RefusedOpeningsAreZero(req: Request)
    requires TableOf(req).Some?
    ensures NamesModel(req) && RefusedBody(req) == Word(0)
  {
  }

  // The list does not depend on the normal form of the request and of the reply.
  lemma NormalIsRecordedAlike(lex: Lexicon, list: seq<uint32>, req: Request, reply: Reply)
    ensures Recorded(list, req, NormalReply(lex, reply)) == Recorded(list, NormalRequest(lex, req), reply)
    ensures NormalRequest(lex, req).IteratorClose? == req.IteratorClose?
  {
    hide NormalStatement, NormalNode, NormalBindings, NormalError;
  }

  lemma CloseIsClosed(sv: ServerState, id: uint32, ans: Answer)
    requires CanDraw(sv, ans)
    ensures Perform(sv, IteratorClose(id), ans).0 ==
            sv.(tables := Closed(sv.tables, id), journal := sv.journal + Asked(sv, IteratorClose(id)))
  {
    hide HasFresh, BodyOf, RefusedBody;
    assert sv.journal + [] == sv.journal;
    if id !in OpenIds(sv.tables) { assert Closed(sv.tables, id).queries == sv.tables.queries; }
  }

  // Closing over a quiet wire closes, and leaves the wire quiet.
  lemma CloseOverWire(lex: Lexicon, w: Wire, id: uint32, ans: Answer)
    requires Quiet(w) && Plausible(w.server, ans)
    ensures Next(lex, w, Exchange(IteratorClose(id), ans)).0 ==
            Wire(w.server.(tables := Closed(w.server.tables, id),
                           journal := w.server.journal + Asked(w.server, IteratorClose(id))), [], [])
  {
    hide Next, Perform, Closed, NormalReply, CanDraw, ValidAnswer, Coherent, Asked;
    ExactlyIfAligned(lex, w.server, Exchange(IteratorClose(id), ans));
    CloseIsClosed(w.server, id, ans);
  }

  lemma {:induction false} ClosedOverIsCloseAll(lex: Lexicon, w: Wire, ids: seq<uint32>, answers: seq<Answer>)
    requires Quiet(w) && Closable(lex, w, ids, answers)
    ensures ClosedOver(lex, w, ids, answers) == Wire(AfterClosing(w.server, ids), [], [])
    decreases |ids|
  {
    hide Next, Plausible, Closed, Asked;
    if ids != [] {
      var n := |ids| - 1;
      ClosedOverIsCloseAll(lex, w, ids[..n], answers[..n]);
      CloseOverWire(lex, ClosedOver(lex, w, ids[..n], answers[..n]), ids[n], answers[n]);
    }
  }

  // One list gains the id that the server gains, unless it is 0.
  lemma OpenTogether(t: Tables, models: map<nat, seq<uint32>>, t': Tables, model: nat, opening: Option<uint32>)
    requires Agree(t, models) && Disjoint(t') && model in models
    requires opening.None? ==> t' == t
    requires opening.Some? ==> opening.value !in OpenIds(t) && OpenIds(t') == OpenIds(t) + {opening.value}
    ensures var list := models[model];
            Agree(t', models[model := if opening.None? || opening.value == 0 then list else list + [opening.value]])
  {
    hide OpenIds, Disjoint;
    var list := models[model];
    var models' := models[model := if opening.None? || opening.value == 0 then list else list + [opening.value]];
    assert forall m: nat, id: uint32 | Owns(models', m, id) ::
        Owns(models, m, id) || (m == model && id != 0 && opening == Some(id));
    forall id | id in OpenIds(t') && id != 0 ensures exists m :: Owns(models', m, id) {
      if id in OpenIds(t) {
        var m :| Owns(models, m, id);
        assert Owns(models', m, id);
      } else {
        assert Owns(models', model, id);
      }
    }
  }

  lemma CallKeepsAgreement(lex: Lexicon, w: World, e: Event)
    requires Agreed(w) && Possible(lex, w, e) && e.Call? && AlignedEvent(w, e)
    ensures Agreed(Happen(lex, w, e))
  {
    hide OpenIds, Disjoint, Recorded, Perform, CanDraw, ValidAnswer, Coherent, OpenedId, Next, Aligned, ValidRequest,
         Agree, NormalRequest, NormalReply;
    var sv, req, list := w.wire.server, NormalRequest(lex, e.request), w.models[e.model];
    var (sv', reply) := Perform(sv, req, e.answer);
    AgreeingIsDisjoint(sv.tables, w.models);
    ExactlyIfAligned(lex, sv, Exchange(e.request, e.answer));
    NormalIsRecordedAlike(lex, list, e.request, reply);
    CallOpensAtMostOne(sv, req, e.answer, list);
    PerformKeepsDisjoint(sv, req, e.answer);
    OpenTogether(sv.tables, w.models, sv'.tables, e.model, OpenedId(sv, req, e.answer));
  }

  // Ids leave one list and the server together.
  lemma LeaveTogether(t: Tables, models: map<nat, seq<uint32>>, t': Tables, models': map<nat, seq<uint32>>, model: nat,
                      gone: set<uint32>)
    requires Agree(t, models) && Disjoint(t') && OpenIds(t') == OpenIds(t) - gone
    requires forall id | id in gone :: Owns(models, model, id)
    requires forall m, id :: Owns(models', m, id) <==> Owns(models, m, id) && !(m == model && id in gone)
    ensures Agree(t', models')
  {
    hide OpenIds, Disjoint;
    forall m, id | Owns(models', m, id) ensures id != 0 && id in OpenIds(t') {
      assert Owns(models, m, id);
      assert id in gone ==> Owns(models, model, id);
    }
    forall id | id in OpenIds(t') && id != 0 ensures exists m :: Owns(models', m, id) {
      var m :| Owns(models, m, id);
      assert Owns(models', m, id);
    }
  }

  lemma CloseKeepsAgreement(lex: Lexicon, w: World, e: Event)
    requires Agreed(w) && Possible(lex, w, e) && e.CloseIterator?
    ensures Agreed(Happen(lex, w, e))
  {
    hide OpenIds, Disjoint, Next, CanDraw, ValidAnswer, Coherent, Closed, Agree;
    if e.id in w.models[e.model] {
      var t, w' := w.wire.server.tables, Happen(lex, w, e);
      CloseOverWire(lex, w.wire, e.id, e.answer);
      AgreeingIsDisjoint(t, w.models);
      CloseRemovesOne(t, e.id);
      LeaveTogether(t, w.models, w'.wire.server.tables, w'.models, e.model, {e.id});
    }
  }

  lemma AgreeingIsDisjoint(t: Tables, models: map<nat, seq<uint32>>)
    requires Agree(t, models)
    ensures Disjoint(t)
  {
  }

  /** Destroying a client model closes exactly its own iterators. */
  lemma DestroyClosesOwn(lex: Lexicon, w: World, e: Event)
    requires Agreed(w) && Possible(lex, w, e) && e.Destroy?
    ensures var w' := Happen(lex, w, e);
            && Agreed(w')
            && OpenIds(w'.wire.server.tables) == OpenIds(w.wire.server.tables) - (set id | id in w.models[e.model])
            && w'.models == w.models - {e.model}
            && (forall m, id | Owns(w.models, m, id) && m != e.model :: id in OpenIds(w'.wire.server.tables))
  {
    hide OpenIds, Disjoint, CloseAll, Closable, ClosedOver, AfterClosing;
    var t, list, w' := w.wire.server.tables, w.models[e.model], Happen(lex, w, e);
    var gone := set id | id in list;
    ClosedOverIsCloseAll(lex, w.wire, list, e.answers);
    CloseAllRemovesExactly(t, list);
    LeaveTogether(t, w.models, w'.wire.server.tables, w'.models, e.model, gone);
    forall m, id | Owns(w.models, m, id) && m != e.model ensures id !in gone {
      assert id in gone ==> Owns(w.models, e.model, id);
    }
  }

  lemma CreateKeepsAgreement(lex: Lexicon, w: World, model: nat)
    requires Agreed(w) && model !in w.models
    ensures Agreed(Happen(lex, w, Create(model)))
  {
    hide OpenIds, Disjoint;
    var w' := Happen(lex, w, Create(model));
    assert forall m, id :: Owns(w'.models, m, id) <==> Owns(w.models, m, id);
  }

  ghost predicate Happened(lex: Lexicon, w: World, events: seq<Event>, w': World)
    decreases |events|
  {
    if events == [] then w' == w
    else Possible(lex, w, events[0]) && Happened(lex, Happen(lex, w, events[0]), events[1..], w')
  }

  // No call of the run strands a payload or has a garbled reply.
  ghost predicate AllAligned(lex: Lexicon, w: World, events: seq<Event>)
    decreases |events|
  {
    events == [] ||
    (&& Possible(lex, w, events[0]) && AlignedEvent(w, events[0])
     && AllAligned(lex, Happen(lex, w, events[0]), events[1..]))
  }

  /**
   The client models and the server agree in every state that a run over the wire can reach, as long as no payload
   command names a dead model and no binding set that is sent repeats a name.
   */
  lemma {:induction false} AgreementHolds(lex: Lexicon, w: World, events: seq<Event>, w': World)
    requires Happened(lex, w, events, w') && AllAligned(lex, w, events) && Agreed(w)
    ensures Agreed(w')
    decreases |events|
  {
    hide Agreed, Possible, Happen, AlignedEvent;
    if events != [] {
      EventKeepsAgreement(lex, w, events[0]);
      AgreementHolds(lex, Happen(lex, w, events[0]), events[1..], w');
    }
  }

  lemma EventKeepsAgreement(lex: Lexicon, w: World, e: Event)
    requires Agreed(w) && Possible(lex, w, e) && AlignedEvent(w, e)
    ensures Agreed(Happen(lex, w, e))
  {
    hide Agreed, Happen;
    match e {
      case Create(m) => CreateKeepsAgreement(lex, w, m);
      case Call(_, _, _) => CallKeepsAgreement(lex, w, e);
      case CloseIterator(_, _, _) => CloseKeepsAgreement(lex, w, e);
      case Destroy(_, _) => DestroyClosesOwn(lex, w, e);
    }
  }

  // ----- Alignment is needed -----

  // Bytes that begin like removeStatement, on a server without models.
  lemma ServeRemoveStatement(lex: Lexicon, sv: ServerState, input: seq<byte>, ans: Answer)
    requires CanDraw(sv, ans) && ValidAnswer(ans) && sv.pool.ids == map[]
    requires |input| >= 2 && input[0] == 3 && input[1] == 0
    ensures Serve(lex, sv, input, ans).0 == sv
  {
    hide DecodeU32, EncodeReply, ReadPayload, ReadPlain, OnModel, ModelId, CanDraw, ValidAnswer;
    assert DecodeU16(input) == Got(3, input[2..]);
  }

  lemma BlankOf256(id: Blob, rest: Statement)
    requires |id| == 256 && rest.subject == Blank(id)
    ensures var s := EncodeStatement(rest); |s| >= 2 && s[0] == 3 && s[1] == 0
  {
    assert EncodeU32(256)[0] == 0;
    assert EncodeNode(Blank(id))[..2] == [3, 0];
  }

  // A listing on a dead model changes nothing at the server and leaves its statement on the wire.
  lemma StrandedWorld(lex: Lexicon, sv: ServerState, req: Request, ans: Answer)
    requires Plausible(sv, ans) && sv.pool.ids == map[] && req.ListStatements? && ValidRequest(req)
    ensures var (w, got) := Next(lex, Wire(sv, [], []), Exchange(req, ans));
            && w.server == sv && w.toServer == EncodeStatement(req.statement)
            && (got.Some? ==> Recorded([7], req, got.value) == [7])
  {
    hide Serve, EncodeRequest, EncodeReply, DecodeReply, Fits, ValidReply, EncodeStatement, CanDraw, ValidAnswer,
         Coherent, Next;
    NextIsServed(lex, sv, Exchange(req, ans));
    var reply := Reply(Word(0), INVALID_MODEL);
    ReplyRoundTrip(lex, ShapeWord, reply, []);
    assert EncodeReply(reply) + [] == EncodeReply(reply);
  }

  // A server without models and with iterator 7 open, and one client model that has recorded it.
  function StartOfRun(cursor: Cursor): World {
    var sv := ServerState(EMPTY_POOL, Tables(map[7 := cursor], map[], map[]), [], true);
    World(Wire(sv, [], []), map[0 := [7]])
  }

  function ListingOf(id: Blob): Request {
    Request.ListStatements(5, Statement(Blank(id), Empty, Empty, Empty))
  }

  lemma StartAgrees(cursor: Cursor)
    ensures var w := StartOfRun(cursor);
            && Agreed(w) && w.wire.server.pool.ids == map[] && OpenIds(w.wire.server.tables) == {7}
            && !Agree(w.wire.server.tables, map[0 := []])
  {
    var w := StartOfRun(cursor);
    assert Owns(w.models, 0, 7);
    assert forall m :: !Owns(map[0 := []], m, 7);
  }

  // Closing an iterator behind the stranded statement.
  lemma CloseIsLost(lex: Lexicon, w: Wire, s: Statement, id: uint32, ans: Answer)
    requires CanDraw(w.server, ans) && ValidAnswer(ans) && w.server.pool.ids == map[]
    requires w.toServer == EncodeStatement(s) && s.subject.Blank? && |s.subject.id| == 256
    ensures Next(lex, w, Exchange(IteratorClose(id), ans)).0.server == w.server
  {
    hide Serve, EncodeRequest, DecodeReply, EncodeStatement, CanDraw, ValidAnswer;
    BlankOf256(s.subject.id, s);
    ServeRemoveStatement(lex, w.server, w.toServer + EncodeRequest(IteratorClose(id)), ans);
  }

  /**
   One stranded payload breaks agreement for good.  A model lists statements about a blank node with an identifier
   of 256 bytes under an id that is dead; the server takes the statement left on the wire for a command, so that
   the iterator that the model closes next stays open, on a connection that is open and with no list to hold it.
   */
  lemma StrandedPayloadBreaksAgreement(lex: Lexicon, cursor: Cursor, id: Blob, ans: Answer, later: Answer)
    requires |id| == 256
    requires Plausible(StartOfRun(cursor).wire.server, ans) && Plausible(StartOfRun(cursor).wire.server, later)
    ensures var w, list := StartOfRun(cursor), Call(0, ListingOf(id), ans);
            && Agreed(w) && Possible(lex, w, list) && !AlignedEvent(w, list)
            && var w', close := Happen(lex, w, list), CloseIterator(0, 7, later);
            && Possible(lex, w', close)
            && var w'' := Happen(lex, w', close);
            && w''.wire.server.open && 7 in OpenIds(w''.wire.server.tables) && w''.models == map[0 := []]
            && !Agree(w''.wire.server.tables, w''.models)
  {
    hide Next, EncodeStatement, CanDraw, ValidAnswer, Coherent, Agree, Recorded, OpenIds;
    var w, list := StartOfRun(cursor), Call(0, ListingOf(id), ans);
    StartAgrees(cursor);
    StrandedWorld(lex, w.wire.server, ListingOf(id), ans);
    var w' := Happen(lex, w, list);
    assert w'.models[0] == [7] && w'.wire.server == w.wire.server;
    CloseIsLost(lex, w'.wire, ListingOf(id).statement, 7, later);
    assert Without([7], 7) == [];
  }
}
