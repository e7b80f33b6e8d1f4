/**
 The client side of a connection (client/clientconnection.cpp): the bytes a stub writes, the bytes it reads
 back, and a whole exchange with the server over a connection without failures.
 */
module ClientConnections {
  import opened Bytes
  import opened Rdf
  import opened BindingSets
  import opened Codec
  import opened DataStreams
  import opened Protocol
  import opened Server
  import opened ServerConnections

  const UNSUPPORTED := Error(false, ERROR_UNKNOWN, Ascii("Server does not support protocol version 5"), NO_LOCATOR)

  // What a stub leaves in the last error.
  function LastError(reply: Reply): Error {
    match reply
    case Reply(_, error) => Remembered(error)
    case VersionReply(supported) => if supported then NO_ERROR else UNSUPPORTED
  }

  /** The caller learns from the last error whether the server reported one, and which. */
  predicate Reported(reply: Reply, lastError: Error) {
    match reply
    case Reply(_, error) => lastError.code == error.code && (error.code != 0 ==> lastError == error)
    case VersionReply(supported) => lastError.code == 0 <==> supported
  }

  class ClientConnection {
    const stream: DataStream
    var lastError: Error

    constructor (stream: DataStream)
      ensures this.stream == stream && lastError == NO_ERROR
    {
      this.stream := stream;
      lastError := NO_ERROR;
    }

    method WriteQuery(query: Blob, language: uint16, userLanguage: Blob)
      modifies stream`output
      ensures stream.output ==
              old(stream.output) + (EncodeBlob(query) + (EncodeU16(language) + EncodeBlob(userLanguage)))
    {
      hide EncodeBlob, EncodeU16;
      stream.WriteByteArray(query);
      stream.WriteUnsignedInt16(language);
      stream.WriteByteArray(userLanguage);
    }

    method WritePayload(req: Request)
      modifies stream`output
      ensures stream.output == old(stream.output) + EncodePayload(req)
    {
      hide EncodeStatement, EncodeBlob, EncodeU16;
      match req {
        case ChangeStatement(_, _, s) => stream.WriteStatement(s);
        case ListStatements(_, s) => stream.WriteStatement(s);
        case ContainsStatement(_, _, s) => stream.WriteStatement(s);
        case Query(_, query, language, userLanguage) => WriteQuery(query, language, userLanguage);
        case _ =>
      }
    }

    method WritePlainArguments(req: Request)
      modifies stream`output
      ensures stream.output == old(stream.output) + EncodePlainArguments(req)
    {
      hide EncodeBlob, EncodeU32;
      match req {
        case CreateModel(name) => stream.WriteByteArray(name);
        case RemoveModel(name) => stream.WriteByteArray(name);
        case IteratorNext(id) => stream.WriteUnsignedInt32(id);
        case CurrentStatement(id) => stream.WriteUnsignedInt32(id);
        case CurrentNode(id) => stream.WriteUnsignedInt32(id);
        case CurrentBindingSet(id) => stream.WriteUnsignedInt32(id);
        case IteratorClose(id) => stream.WriteUnsignedInt32(id);
        case QueryType(id) => stream.WriteUnsignedInt32(id);
        case QueryBoolValue(id) => stream.WriteUnsignedInt32(id);
        case SupportsProtocolVersion(version) => stream.WriteUnsignedInt32(version);
        case _ =>
      }
    }

    /** The first half of a stub. */
    method Send(req: Request)
      modifies stream`output
      ensures stream.output == old(stream.output) + EncodeRequest(req)
    {
      hide EncodePayload, EncodePlainArguments, EncodeU16, EncodeU32, Command;
      stream.WriteUnsignedInt16(Command(req));
      if NamesModel(req) {
        stream.WriteUnsignedInt32(req.model);
        WritePayload(req);
      } else {
        WritePlainArguments(req);
      }
    }

    method ReadBody(shape: Shape) returns (ok: bool, body: Body)
      modifies stream`input
      ensures match DecodeBody(stream.lex, shape, old(stream.input))
              case Got(value, rest) => ok && body == value && stream.input == rest
              case Short => !ok && stream.input == []
    {
      hide DecodeU32, DecodeErrorCode, DecodeBool, DecodeI32, DecodeU8, DecodeNode, DecodeStatement, DecodeBindings;
      ok, body := true, NoBody;
      match shape {
        case ShapeNone =>
        case ShapeVersion =>
        case ShapeWord => var v; ok, v := stream.ReadUnsignedInt32(); body := Word(v);
        case ShapeCode => var v; ok, v := stream.ReadErrorCode(); body := Code(v);
        case ShapeFlag => var v; ok, v := stream.ReadBool(); body := Flag(v);
        case ShapeNumber => var v; ok, v := stream.ReadInt32(); body := Number(v);
        case ShapeKind => var v; ok, v := stream.ReadUnsignedInt8(); body := Body.Kind(v);
        case ShapeNode => var v; ok, v := stream.ReadNode(); body := NodeBody(v);
        case ShapeStatement => var v; ok, v := stream.ReadStatement(); body := StatementBody(v);
        case ShapeBindings =>
          var v;
          ok, v := stream.ReadBindingSet();
          body := BindingsBody(Bindings(v.names, v.values, v.bindingMap));
      }
    }

    /** The second half: the reply is read, and its error becomes the last error. */
    method Receive(shape: Shape) returns (ok: bool, reply: Reply)
      modifies stream`input, this`lastError
      ensures match DecodeReply(stream.lex, shape, old(stream.input))
              case Got(value, rest) => ok && reply == value && stream.input == rest && lastError == LastError(reply)
              case Short => !ok && stream.input == []
      ensures ok ==> Reported(reply, lastError)
    {
      hide DecodeBody, DecodeError, DecodeBool, Ascii;
      if shape.ShapeVersion? {
        var supported;
        ok, supported := stream.ReadBool();
        reply := VersionReply(supported);
        lastError := if supported then NO_ERROR else UNSUPPORTED;
      } else {
        var body;
        var error := NO_ERROR;
        ok, body := ReadBody(shape);
        if ok {
          ok, error := stream.ReadError();
          if ok { lastError := Remembered(error); }
        }
        reply := Reply(body, error);
      }
    }
  }

  /** A client and a server, and the bytes between them. */
  class Connection {
    const client: ClientConnection
    const server: ServerConnection

    constructor (client: ClientConnection, server: ServerConnection)
      ensures this.client == client && this.server == server
    {
      this.client, this.server := client, server;
    }

    // Both streams are empty and the server waits for a command.
    ghost predicate Idle()
      reads client.stream, server, server.stream
    {
      && client.stream != server.stream && client.stream.lex == server.stream.lex
      && client.stream.input == [] && client.stream.output == []
      && server.stream.input == [] && server.stream.output == []
      && server.currentCommand == 0
    }

    /**
     A stub called on an idle connection: the server performs the request as read, the client gets the reply
     as read, and nothing is left over in either direction.
     */
    method Call(req: Request, ans: Answer) returns (reply: Reply)
      requires Idle() && ValidRequest(req) && Plausible(server.State(), ans)
      requires Aligned(server.State(), req, ans)
      modifies client, client.stream, server, server.stream, server.modelPool
      ensures Idle()
      ensures var (sv, r) := Perform(old(server.State()), NormalRequest(server.stream.lex, req), ans);
              server.State() == sv && reply == NormalReply(server.stream.lex, r) && client.lastError == LastError(reply)
      ensures Reported(reply, client.lastError)
    {
      hide Serve, EncodeRequest, Perform, NormalRequest, NormalReply, EncodeReply, DecodeReply, Faithful, Fits,
           ValidReply, Strands, Garbles, ValidRequest, CanDraw, ValidAnswer, LastError, Reported, Coherent, Distinct,
           ShapeOf;
      ghost var lex, sv := server.stream.lex, server.State();
      client.Send(req);
      server.stream.input, client.stream.output := server.stream.input + client.stream.output, [];
      assert server.stream.input == EncodeRequest(req) + [];
      ServeRequest(lex, sv, req, ans, []);
      server.ReadNextCommand(ans);
      client.stream.input, server.stream.output := client.stream.input + server.stream.output, [];
      ghost var r := Perform(sv, NormalRequest(lex, req), ans).1;
      assert client.stream.input == EncodeReply(r) + [];
      PerformReplies(sv, NormalRequest(lex, req), ans);
      NormalKeepsShape(lex, req);
      NormalKeepsGarbling(sv, lex, req, ans);
      ReplyRoundTrip(lex, ShapeOf(req), r, []);
      var ok;
      ok, reply := client.Receive(ShapeOf(req));
    }
  }

  // What a backend can answer, with random numbers that are not all taken.
  ghost predicate Plausible(sv: ServerState, ans: Answer) {
    CanDraw(sv, ans) && ValidAnswer(ans) && Coherent(ans.bindings)
  }

  /** A request that the server reads in full, and whose reply the client can read back. */
  ghost predicate Aligned(sv: ServerState, req: Request, ans: Answer) {
    !Strands(sv, req) && !Garbles(sv, req, ans)
  }

  lemma NormalKeepsGarbling(sv: ServerState, lex: Lexicon, req: Request, ans: Answer)
    ensures Garbles(sv, NormalRequest(lex, req), ans) == Garbles(sv, req, ans)
  {
    hide NormalStatement;
  }

  lemma NormalKeepsShape(lex: Lexicon, req: Request)
    ensures ShapeOf(NormalRequest(lex, req)) == ShapeOf(req)
  {
    hide NormalStatement;
  }
}
