/**
 The handlers of server/serverconnection.cpp over the stream of a connection.  What the backend answers and
 the random numbers drawn during a command are given with it.
 */
module ServerConnections {
  import opened Wrappers
  import opened Bytes
  import opened Rdf
  import opened BindingSets
  import opened Codec
  import opened DataStreams
  import opened Protocol
  import opened ModelPools
  import opened Server

  class ServerConnection {
    const stream: DataStream
    const modelPool: ModelPool
    var currentCommand: uint16
    var openStatementIterators: map<uint32, Cursor>
    var openNodeIterators: map<uint32, Cursor>
    var openQueryIterators: map<uint32, Cursor>
    var open: bool
    ghost var journal: seq<BackendCall>   // what was asked of the backend

    ghost function State(): ServerState
      reads this, modelPool
    {
      var tables := Tables(openStatementIterators, openNodeIterators, openQueryIterators);
      ServerState(modelPool.State(), tables, journal, open)
    }

    // The state, the unread bytes, and what was written after `before`.
    ghost predicate Done(r: (ServerState, seq<byte>, seq<byte>), before: seq<byte>)
      reads this, stream, modelPool
    {
      State() == r.0 && stream.input == r.1 && stream.output == before + r.2
    }

    constructor (stream: DataStream, modelPool: ModelPool)
      ensures this.stream == stream && this.modelPool == modelPool && currentCommand == 0
      ensures State() == ServerState(modelPool.State(), Tables(map[], map[], map[]), [], true)
    {
      this.stream, this.modelPool := stream, modelPool;
      currentCommand := 0;
      openStatementIterators, openNodeIterators, openQueryIterators := map[], map[], map[];
      open, journal := true, [];
    }

    // ----- Model commands -----

    // The model id, if there is one and it is live.
    method GetModel() returns (found: bool, id: uint32)
      modifies stream`input
      ensures found <==> DecodeU32(old(stream.input)).Got? && DecodeU32(old(stream.input)).value in modelPool.modelIdMap
      ensures id == ModelId(old(stream.input))
      ensures stream.input == OrElse(DecodeU32(old(stream.input)), 0).1
    {
      hide DecodeU32;
      var ok;
      ok, id := stream.ReadUnsignedInt32();
      found := ok && modelPool.Contains(id);
    }

    method MapIterator(table: Table, cursor: Cursor, draws: seq<Draw>) returns (id: uint32)
      requires HasFresh(OpenIds(State().tables), draws)
      modifies this`openStatementIterators, this`openNodeIterators, this`openQueryIterators
      ensures id == FirstFresh(OpenIds(old(State()).tables), draws)
      ensures State() == old(State()).(tables := Mapped(old(State()).tables, table, id, cursor))
    {
      id := GenerateUniqueId(openStatementIterators.Keys + openNodeIterators.Keys + openQueryIterators.Keys, draws);
      match table {
        case Statements => openStatementIterators := openStatementIterators[id := cursor];
        case Nodes => openNodeIterators := openNodeIterators[id := cursor];
        case Queries => openQueryIterators := openQueryIterators[id := cursor];
      }
    }

    // What the backend is asked.
    ghost method Ask(call: BackendCall)
      modifies this`journal
      ensures State() == Asking(old(State()), call)
    {
      journal := journal + [call];
    }

    method ReadStatementArgument() returns (s: Statement)
      modifies stream`input
      ensures (s, stream.input) == OrElse(DecodeStatement(stream.lex, old(stream.input)), EMPTY_STATEMENT)
    {
      hide DecodeStatement;
      var ok;
      ok, s := stream.ReadStatement();
    }

    // An invalid iterator is not mapped, and its id is 0.
    method ReplyWithIterator(table: Table, ans: Answer)
      requires HasFresh(OpenIds(State().tables), ans.iteratorDraws)
      modifies this, stream`output
      ensures currentCommand == old(currentCommand)
      ensures match ans.cursor
              case None =>
                State() == old(State()) && stream.output == old(stream.output) + EncodeReply(Reply(Word(0), ans.error))
              case Some(cursor) =>
                var id := FirstFresh(OpenIds(old(State()).tables), ans.iteratorDraws);
                && State() == old(State()).(tables := Mapped(old(State()).tables, table, id, cursor))
                && stream.output == old(stream.output) + EncodeReply(Reply(Word(id), ans.error))
    {
      hide EncodeU32, EncodeError, HasFresh, OpenIds, Mapped, FirstFresh;
      var it: uint32 := 0;
      if ans.cursor.Some? { it := MapIterator(table, ans.cursor.value, ans.iteratorDraws); }
      stream.WriteUnsignedInt32(it);
      stream.WriteError(ans.error);
    }

    method ReplyWithError(error: Error)
      modifies stream`output
      ensures stream.output == old(stream.output) + EncodeReply(Reply(NoBody, error))
    {
      hide EncodeError;
      stream.WriteError(error);
      assert [] + EncodeError(error) == EncodeError(error);
    }

    method ReplyWithFlag(flag: bool, error: Error)
      modifies stream`output
      ensures stream.output == old(stream.output) + EncodeReply(Reply(Flag(flag), error))
    {
      hide EncodeBool, EncodeError;
      stream.WriteBool(flag);
      stream.WriteError(error);
    }

    method ReplyWithNode(node: Node, error: Error)
      requires ValidNode(node)
      modifies stream`output
      ensures stream.output == old(stream.output) + EncodeReply(Reply(NodeBody(node), error))
    {
      hide EncodeNode, EncodeError;
      stream.WriteNode(node);
      stream.WriteError(error);
    }

    method ReplyWithStatement(statement: Statement, error: Error)
      requires ValidStatement(statement)
      modifies stream`output
      ensures stream.output == old(stream.output) + EncodeReply(Reply(StatementBody(statement), error))
    {
      hide EncodeStatement, EncodeError, ValidStatement;
      stream.WriteStatement(statement);
      stream.WriteError(error);
    }

    method ReplyWithBindings(b: Bindings, error: Error)
      requires ValidBody(BindingsBody(b))
      modifies stream`output
      ensures stream.output == old(stream.output) + EncodeReply(Reply(BindingsBody(b), error))
    {
      hide EncodeBindings, EncodeError;
      stream.WriteBindingSet(b);
      stream.WriteError(error);
    }

    method ReplyWithKind(kind: uint8, error: Error)
      modifies stream`output
      ensures stream.output == old(stream.output) + EncodeReply(Reply(Body.Kind(kind), error))
    {
      hide EncodeError;
      stream.WriteUnsignedInt8(kind);
      stream.WriteError(error);
    }

    method ReadQueryArguments(id: uint32) returns (queryString: Blob, queryLang: uint16, userLang: Blob)
      modifies stream`input
      ensures (Request.Query(id, queryString, queryLang, userLang), stream.input) ==
              ReadPayload(stream.lex, Request.Query(id, [], 0, []), old(stream.input))
    {
      hide DecodeBlob, DecodeU16;
      var ok;
      ok, queryString := stream.ReadByteArray();
      if !ok { queryString := []; }
      ok, queryLang := stream.ReadUnsignedInt16();
      ok, userLang := stream.ReadByteArray();
      if !ok { userLang := []; }
    }

    // addStatement, removeStatement, removeAllStatements
    method ChangeModel(change: Change, ans: Answer)
      requires CanDraw(State(), ans) && ValidAnswer(ans)
      modifies this, stream
      ensures currentCommand == old(currentCommand)
      ensures Done(ServeModel(stream.lex, old(State()),
                              ChangeStatement(change, ModelId(old(stream.input)), EMPTY_STATEMENT),
                              DecodeU32(old(stream.input)), ans), old(stream.output))
    {
      hide Ascii, DecodeU32, DecodeStatement, EncodeErrorCode, EncodeError, ValidAnswer, HasFresh, CanDraw,
           OpenIds, Mapped, FirstFresh;
      var found, id := GetModel();
      if found {
        var s := ReadStatementArgument();
        Ask(AlterCall(modelPool.modelIdMap[id], change, s));
        stream.WriteErrorCode(ans.code);
        stream.WriteError(ans.error);
      } else {
        stream.WriteErrorCode(ERROR_INVALID_ARGUMENT);
        stream.WriteError(INVALID_MODEL);
      }
    }

    method ListStatements(ans: Answer)
      requires CanDraw(State(), ans) && ValidAnswer(ans)
      modifies this, stream
      ensures currentCommand == old(currentCommand)
      ensures Done(ServeModel(stream.lex, old(State()),
                              Request.ListStatements(ModelId(old(stream.input)), EMPTY_STATEMENT),
                              DecodeU32(old(stream.input)), ans), old(stream.output))
    {
      hide Ascii, DecodeU32, DecodeStatement, EncodeU32, EncodeError, ValidAnswer, HasFresh, OpenIds, Mapped,
           FirstFresh, BodyOf;
      var found, id := GetModel();
      if found {
        var s := ReadStatementArgument();
        Ask(ListCall(modelPool.modelIdMap[id], s));
        ReplyWithIterator(Statements, ans);
      } else {
        stream.WriteUnsignedInt32(0);
        stream.WriteError(INVALID_MODEL);
      }
    }

    // containsStatement, containsAnyStatement
    method ContainsStatement(any: bool, ans: Answer)
      requires CanDraw(State(), ans) && ValidAnswer(ans)
      modifies this, stream
      ensures currentCommand == old(currentCommand)
      ensures Done(ServeModel(stream.lex, old(State()),
                              Request.ContainsStatement(any, ModelId(old(stream.input)), EMPTY_STATEMENT),
                              DecodeU32(old(stream.input)), ans), old(stream.output))
    {
      hide Ascii, DecodeU32, DecodeStatement, EncodeReply, ValidAnswer, HasFresh, CanDraw, OpenIds, Mapped, FirstFresh;
      var found, id := GetModel();
      if found {
        var s := ReadStatementArgument();
        if any {
          Ask(ContainsAnyCall(modelPool.modelIdMap[id], s));
          ReplyWithFlag(ans.containsAny, ans.error);
        } else {
          Ask(ContainsCall(modelPool.modelIdMap[id], s));
          ReplyWithFlag(ans.contains, ans.error);
        }
      } else {
        ReplyWithFlag(false, INVALID_MODEL);
      }
    }

    method ListContexts(ans: Answer)
      requires CanDraw(State(), ans) && ValidAnswer(ans)
      modifies this, stream
      ensures currentCommand == old(currentCommand)
      ensures Done(ServeModel(stream.lex, old(State()), Request.ListContexts(ModelId(old(stream.input))),
                              DecodeU32(old(stream.input)), ans), old(stream.output))
    {
      hide Ascii, DecodeU32, EncodeU32, EncodeError, ValidAnswer, HasFresh, OpenIds, Mapped,
           FirstFresh, BodyOf;
      var found, id := GetModel();
      if found {
        Ask(ContextsCall(modelPool.modelIdMap[id]));
        ReplyWithIterator(Nodes, ans);
      } else {
        stream.WriteUnsignedInt32(0);
        stream.WriteError(INVALID_MODEL);
      }
    }

    method Query(ans: Answer)
      requires CanDraw(State(), ans) && ValidAnswer(ans)
      modifies this, stream
      ensures currentCommand == old(currentCommand)
      ensures Done(ServeModel(stream.lex, old(State()), Request.Query(ModelId(old(stream.input)), [], 0, []),
                              DecodeU32(old(stream.input)), ans), old(stream.output))
    {
      hide Ascii, DecodeU32, EncodeU32, EncodeError, ValidAnswer, HasFresh, OpenIds, ReadPayload, Mapped,
           FirstFresh, BodyOf;
      var found, id := GetModel();
      if found {
        var queryString, queryLang, userLang := ReadQueryArguments(id);
        Ask(QueryCall(modelPool.modelIdMap[id], queryString, queryLang, userLang));
        ReplyWithIterator(Queries, ans);
      } else {
        stream.WriteUnsignedInt32(0);
        stream.WriteError(INVALID_MODEL);
      }
    }

    method StatementCount(ans: Answer)
      requires CanDraw(State(), ans) && ValidAnswer(ans)
      modifies this, stream
      ensures currentCommand == old(currentCommand)
      ensures Done(ServeModel(stream.lex, old(State()), Request.StatementCount(ModelId(old(stream.input))),
                              DecodeU32(old(stream.input)), ans), old(stream.output))
    {
      hide Ascii, DecodeU32, EncodeI32, EncodeError, ValidAnswer, HasFresh, CanDraw, OpenIds, Mapped, FirstFresh;
      var found, id := GetModel();
      if found {
        Ask(CountCall(modelPool.modelIdMap[id]));
        stream.WriteInt32(ans.count);
        stream.WriteError(ans.error);
      } else {
        stream.WriteInt32(-1);
        stream.WriteError(INVALID_MODEL);
      }
    }

    method IsEmpty(ans: Answer)
      requires CanDraw(State(), ans) && ValidAnswer(ans)
      modifies this, stream
      ensures currentCommand == old(currentCommand)
      ensures Done(ServeModel(stream.lex, old(State()), Request.IsEmpty(ModelId(old(stream.input))),
                              DecodeU32(old(stream.input)), ans), old(stream.output))
    {
      hide Ascii, DecodeU32, EncodeReply, ValidAnswer, HasFresh, CanDraw, OpenIds, Mapped, FirstFresh;
      var found, id := GetModel();
      if found {
        Ask(EmptyCall(modelPool.modelIdMap[id]));
        ReplyWithFlag(ans.empty, ans.error);
      } else {
        ReplyWithFlag(false, INVALID_MODEL);
      }
    }

    method CreateBlankNode(ans: Answer)
      requires CanDraw(State(), ans) && ValidAnswer(ans)
      modifies this, stream
      ensures currentCommand == old(currentCommand)
      ensures Done(ServeModel(stream.lex, old(State()), Request.CreateBlankNode(ModelId(old(stream.input))),
                              DecodeU32(old(stream.input)), ans), old(stream.output))
    {
      hide Ascii, DecodeU32, EncodeReply, HasFresh, CanDraw, OpenIds, Mapped, FirstFresh;
      var found, id := GetModel();
      if found {
        Ask(BlankCall(modelPool.modelIdMap[id]));
        ReplyWithNode(ans.blankNode, ans.error);
      } else {
        ReplyWithNode(Empty, INVALID_MODEL);
      }
    }

    // ----- Iterator commands -----

    method ReadIdArgument() returns (id: uint32)
      modifies stream`input
      ensures (id, stream.input) == OrElse(DecodeU32(old(stream.input)), 0)
    {
      hide DecodeU32;
      var ok;
      ok, id := stream.ReadUnsignedInt32();
    }

    method IteratorNext(ans: Answer)
      requires CanDraw(State(), ans) && ValidAnswer(ans)
      modifies this, stream
      ensures currentCommand == old(currentCommand)
      ensures var (id, rest) := OrElse(DecodeU32(old(stream.input)), 0);
              Done(ServeInFull(old(State()), Request.IteratorNext(id), rest, ans), old(stream.output))
    {
      hide Ascii, DecodeU32, EncodeReply, CanDraw, HasFresh, FirstFresh, OnModel, Opened, Removed;
      var id := ReadIdArgument();
      if id in openStatementIterators {
        Ask(NextCall(openStatementIterators[id]));
        ReplyWithFlag(ans.next, ans.error);
      } else if id in openNodeIterators {
        Ask(NextCall(openNodeIterators[id]));
        ReplyWithFlag(ans.next, ans.error);
      } else if id in openQueryIterators {
        Ask(NextCall(openQueryIterators[id]));
        ReplyWithFlag(ans.next, ans.error);
      } else {
        ReplyWithFlag(false, INVALID_ITERATOR);
      }
    }

    // The current statement of a statement iterator or of a graph query.
    method StatementIteratorCurrent(ans: Answer)
      requires CanDraw(State(), ans) && ValidAnswer(ans)
      modifies this, stream
      ensures currentCommand == old(currentCommand)
      ensures var (id, rest) := OrElse(DecodeU32(old(stream.input)), 0);
              Done(ServeInFull(old(State()), Request.CurrentStatement(id), rest, ans), old(stream.output))
    {
      hide Ascii, DecodeU32, EncodeReply, CanDraw, HasFresh, FirstFresh, OnModel, Opened, Removed;
      var id := ReadIdArgument();
      if id in openStatementIterators {
        Ask(StatementCall(openStatementIterators[id]));
        ReplyWithStatement(ans.statement, ans.error);
      } else if id in openQueryIterators {
        Ask(StatementCall(openQueryIterators[id]));
        ReplyWithStatement(ans.statement, ans.error);
      } else {
        ReplyWithStatement(EMPTY_STATEMENT, INVALID_ITERATOR);
      }
    }

    method NodeIteratorCurrent(ans: Answer)
      requires CanDraw(State(), ans) && ValidAnswer(ans)
      modifies this, stream
      ensures currentCommand == old(currentCommand)
      ensures var (id, rest) := OrElse(DecodeU32(old(stream.input)), 0);
              Done(ServeInFull(old(State()), Request.CurrentNode(id), rest, ans), old(stream.output))
    {
      hide Ascii, DecodeU32, EncodeReply, CanDraw, HasFresh, FirstFresh, OnModel, Opened, Removed;
      var id := ReadIdArgument();
      if id in openNodeIterators {
        Ask(NodeCall(openNodeIterators[id]));
        ReplyWithNode(ans.node, ans.error);
      } else {
        ReplyWithNode(Empty, INVALID_ITERATOR);
      }
    }

    method QueryIteratorCurrent(ans: Answer)
      requires CanDraw(State(), ans) && ValidAnswer(ans)
      modifies this, stream
      ensures currentCommand == old(currentCommand)
      ensures var (id, rest) := OrElse(DecodeU32(old(stream.input)), 0);
              Done(ServeInFull(old(State()), Request.CurrentBindingSet(id), rest, ans), old(stream.output))
    {
      hide Ascii, DecodeU32, EncodeReply, CanDraw, HasFresh, FirstFresh, OnModel, Opened, Removed;
      var id := ReadIdArgument();
      if id in openQueryIterators {
        Ask(BindingsCall(openQueryIterators[id]));
        ReplyWithBindings(ans.bindings, ans.error);
      } else {
        ReplyWithBindings(NO_BINDINGS, INVALID_ITERATOR);
      }
    }

    method IteratorClose(ans: Answer)
      requires CanDraw(State(), ans) && ValidAnswer(ans)
      modifies this, stream
      ensures currentCommand == old(currentCommand)
      ensures var (id, rest) := OrElse(DecodeU32(old(stream.input)), 0);
              Done(ServeInFull(old(State()), Request.IteratorClose(id), rest, ans), old(stream.output))
    {
      hide Ascii, DecodeU32, EncodeReply, CanDraw, HasFresh, FirstFresh, OnModel, Opened, Removed, ModelCall, TableOf,
           Mapped, ValidBody, ValidAnswer, ValidReply;
      var id := ReadIdArgument();
      if id in openStatementIterators {
        Ask(CloseCall(openStatementIterators[id]));
        ReplyWithError(ans.error);
        openStatementIterators := openStatementIterators - {id};
      } else if id in openNodeIterators {
        Ask(CloseCall(openNodeIterators[id]));
        ReplyWithError(ans.error);
        openNodeIterators := openNodeIterators - {id};
      } else if id in openQueryIterators {
        Ask(CloseCall(openQueryIterators[id]));
        ReplyWithError(ans.error);
        openQueryIterators := openQueryIterators - {id};
      } else {
        ReplyWithError(INVALID_ITERATOR);
      }
    }

    method QueryIteratorType(ans: Answer)
      requires CanDraw(State(), ans) && ValidAnswer(ans)
      modifies this, stream
      ensures currentCommand == old(currentCommand)
      ensures var (id, rest) := OrElse(DecodeU32(old(stream.input)), 0);
              Done(ServeInFull(old(State()), Request.QueryType(id), rest, ans), old(stream.output))
    {
      hide Ascii, DecodeU32, EncodeReply, CanDraw, HasFresh, FirstFresh, OnModel, Opened, Removed;
      var id := ReadIdArgument();
      if id in openQueryIterators {
        Ask(TypeCall(openQueryIterators[id]));
        var type_: uint8 := 0;
        if ans.queryKind.Graph? {
          type_ := 1;
        } else if ans.queryKind.Bool? {
          type_ := 2;
        } else {
          type_ := 3;
        }
        ReplyWithKind(type_, ans.error);
      } else {
        ReplyWithKind(0, INVALID_ITERATOR);
      }
    }

    method QueryIteratorBoolValue(ans: Answer)
      requires CanDraw(State(), ans) && ValidAnswer(ans)
      modifies this, stream
      ensures currentCommand == old(currentCommand)
      ensures var (id, rest) := OrElse(DecodeU32(old(stream.input)), 0);
              Done(ServeInFull(old(State()), Request.QueryBoolValue(id), rest, ans), old(stream.output))
    {
      hide Ascii, DecodeU32, EncodeReply, CanDraw, HasFresh, FirstFresh, OnModel, Opened, Removed;
      var id := ReadIdArgument();
      if id in openQueryIterators {
        Ask(BoolCall(openQueryIterators[id]));
        ReplyWithFlag(ans.boolValue, ans.error);
      } else {
        ReplyWithFlag(false, INVALID_ITERATOR);
      }
    }

    // ----- The other commands -----

    method SupportsProtocolVersion(ans: Answer)
      requires CanDraw(State(), ans) && ValidAnswer(ans)
      modifies this, stream
      ensures currentCommand == old(currentCommand)
      ensures var (version, rest) := OrElse(DecodeU32(old(stream.input)), 0);
              Done(ServeInFull(old(State()), Request.SupportsProtocolVersion(version), rest, ans), old(stream.output))
    {
      hide Ascii, DecodeU32, EncodeBool, CanDraw, HasFresh, FirstFresh, OnModel, OnIterator, Opened, Removed;
      var requestedVersion := ReadIdArgument();
      stream.WriteBool(requestedVersion == PROTOCOL_VERSION);
    }

    method ReadNameArgument() returns (name: Blob)
      modifies stream`input
      ensures (name, stream.input) == OrElse(DecodeBlob(old(stream.input)), [])
    {
      hide DecodeBlob;
      var ok;
      ok, name := stream.ReadByteArray();
      if !ok { name := []; }
    }

    method ReplyWithWord(word: uint32, error: Error)
      modifies stream`output
      ensures stream.output == old(stream.output) + EncodeReply(Reply(Word(word), error))
    {
      hide EncodeU32, EncodeError;
      stream.WriteUnsignedInt32(word);
      stream.WriteError(error);
    }

    method CreateModel(ans: Answer)
      requires CanDraw(State(), ans) && ValidAnswer(ans)
      modifies this, stream, modelPool
      ensures currentCommand == old(currentCommand)
      ensures var (name, rest) := OrElse(DecodeBlob(old(stream.input)), []);
              Done(ServeInFull(old(State()), Request.CreateModel(name), rest, ans), old(stream.output))
    {
      hide Ascii, DecodeBlob, EncodeReply, HasFresh, FirstFresh, OnModel, OnIterator, Opened, Removed, OpenIds;
      var name := ReadNameArgument();
      if name !in modelPool.modelNameMap { Ask(OpenCall(name)); }
      var id := modelPool.IdForModelName(name, ans.modelOpens, ans.modelDraws);
      ReplyWithWord(id, NO_ERROR);
    }

    method RemoveModel(ans: Answer)
      requires CanDraw(State(), ans) && ValidAnswer(ans)
      modifies this, stream, modelPool
      ensures currentCommand == old(currentCommand)
      ensures var (name, rest) := OrElse(DecodeBlob(old(stream.input)), []);
              Done(ServeInFull(old(State()), Request.RemoveModel(name), rest, ans), old(stream.output))
    {
      hide Ascii, DecodeBlob, EncodeReply, HasFresh, FirstFresh, OnModel, OnIterator, Opened, Removed, OpenIds;
      var name := ReadNameArgument();
      modelPool.RemoveModel(name);
      Ask(DropCall(name));
      ReplyWithError(NO_ERROR);
    }

    method SupportedFeatures(ans: Answer)
      requires CanDraw(State(), ans) && ValidAnswer(ans)
      modifies this, stream
      ensures currentCommand == old(currentCommand)
      ensures Done(ServeInFull(old(State()), Request.SupportedFeatures, old(stream.input), ans), old(stream.output))
    {
      hide Ascii, EncodeReply, CanDraw, HasFresh, FirstFresh, OnModel, OnIterator, Opened, Removed;
      Ask(FeaturesCall);
      if ans.features.Some? {
        ReplyWithWord(ans.features.value, NO_ERROR);
      } else {
        ReplyWithWord(0, NO_BACKEND);
      }
    }

    // ----- Dispatch -----

    // The commands that name a model.
    method ReadModelCommand(command: uint16, ans: Answer)
      requires CanDraw(State(), ans) && ValidAnswer(ans)
      requires ModelCommand(command, ModelId(stream.input)).Some?
      modifies this, stream
      ensures currentCommand == old(currentCommand)
      ensures Done(ServeModel(stream.lex, old(State()), ModelCommand(command, ModelId(old(stream.input))).value,
                              DecodeU32(old(stream.input)), ans), old(stream.output))
    {
      hide ServeModel, DecodeU32, ModelId, CanDraw, ValidAnswer;
      match command {
        case 0x2 => ChangeModel(Add, ans);
        case 0x3 => ChangeModel(Remove, ans);
        case 0x4 => ChangeModel(RemoveAll, ans);
        case 0x5 => ListStatements(ans);
        case 0x6 => ContainsStatement(false, ans);
        case 0x7 => ContainsStatement(true, ans);
        case 0x8 => ListContexts(ans);
        case 0x9 => StatementCount(ans);
        case 0x10 => IsEmpty(ans);
        case 0x11 => Query(ans);
        case _ => CreateBlankNode(ans);
      }
    }

    method ReadPlainCommand(command: uint16, ans: Answer)
      requires CanDraw(State(), ans) && ValidAnswer(ans)
      requires ReadPlain(command, stream.input).Some?
      modifies this, stream, modelPool
      ensures currentCommand == old(currentCommand)
      ensures var (req, rest) := ReadPlain(command, old(stream.input)).value;
              Done(ServeInFull(old(State()), req, rest, ans), old(stream.output))
    {
      hide ServeInFull, DecodeU32, DecodeBlob, CanDraw, ValidAnswer, OrElse;
      match command {
        case 0x1 => CreateModel(ans);
        case 0x22 => RemoveModel(ans);
        case 0x12 => IteratorNext(ans);
        case 0x13 => StatementIteratorCurrent(ans);
        case 0x14 => NodeIteratorCurrent(ans);
        case 0x15 => QueryIteratorCurrent(ans);
        case 0x16 => IteratorClose(ans);
        case 0x17 => QueryIteratorType(ans);
        case 0x18 => QueryIteratorBoolValue(ans);
        case 0x19 => SupportedFeatures(ans);
        case _ => SupportsProtocolVersion(ans);
      }
    }

    /** One command, unless one is being served already; the connection is ready for the next one afterwards. */
    method ReadNextCommand(ans: Answer)
      requires CanDraw(State(), ans) && ValidAnswer(ans)
      modifies this, stream, modelPool
      ensures currentCommand == old(currentCommand)
      ensures old(currentCommand) != 0 ==> Done((old(State()), old(stream.input), []), old(stream.output))
      ensures old(currentCommand) == 0 ==>
                Done(Serve(stream.lex, old(State()), old(stream.input), ans), old(stream.output))
    {
      hide ServeModel, ServeInFull, DecodeU32, DecodeU16, ModelCommand, ReadPlain, ModelId, CanDraw, ValidAnswer;
      if currentCommand != 0 { return; }
      var ok, command := stream.ReadUnsignedInt16();
      currentCommand := command;
      if IsModelCommand(command) {
        CommandsAreSplit(command, stream.input);
        ReadModelCommand(command, ans);
      } else {
        CommandsAreSplit(command, stream.input);
        if IsPlainCommand(command) {
          ReadPlainCommand(command, ans);
        } else {
          open := false;
        }
      }
      currentCommand := 0;
    }

  }

  predicate IsModelCommand(command: uint16) {
    command in {0x2, 0x3, 0x4, 0x5, 0x6, 0x7, 0x8, 0x9, 0x10, 0x11, 0x21}
  }

  predicate IsPlainCommand(command: uint16) {
    command in {0x1, 0x12, 0x13, 0x14, 0x15, 0x16, 0x17, 0x18, 0x19, 0x20, 0x22}
  }

  lemma CommandsAreSplit(command: uint16, s: seq<byte>)
    ensures ModelCommand(command, ModelId(s)).Some? <==> IsModelCommand(command)
    ensures ReadPlain(command, s).Some? <==> IsPlainCommand(command)
  {
    hide DecodeU32, DecodeBlob;
  }
}
