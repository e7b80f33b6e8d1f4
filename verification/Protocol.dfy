/**
 The commands of the client/server protocol (server/commands.h): the bytes of every request, written by
 client/clientconnection.cpp, and of every reply, written by server/serverconnection.cpp.
 */
module Protocol {
  import opened Bytes
  import opened Rdf
  import opened BindingSets
  import opened Codec

  const PROTOCOL_VERSION: uint32 := 5

  datatype Change = Add | Remove | RemoveAll

  datatype Request =
    | CreateModel(name: Blob)
    | RemoveModel(name: Blob)
    | SupportedFeatures
    | ChangeStatement(change: Change, model: uint32, statement: Statement)
    | ListStatements(model: uint32, statement: Statement)
    | ContainsStatement(any: bool, model: uint32, statement: Statement)
    | ListContexts(model: uint32)
    | StatementCount(model: uint32)
    | IsEmpty(model: uint32)
    | CreateBlankNode(model: uint32)
    | Query(model: uint32, query: Blob, language: uint16, userLanguage: Blob)
    | IteratorNext(iterator_: uint32)
    | CurrentStatement(iterator_: uint32)
    | CurrentNode(iterator_: uint32)
    | CurrentBindingSet(iterator_: uint32)
    | IteratorClose(iterator_: uint32)
    | QueryType(iterator_: uint32)
    | QueryBoolValue(iterator_: uint32)
    | SupportsProtocolVersion(version: uint32)

  function Command(req: Request): uint16 {
    match req
    case CreateModel(_) => 0x1
    case ChangeStatement(Add, _, _) => 0x2
    case ChangeStatement(Remove, _, _) => 0x3
    case ChangeStatement(RemoveAll, _, _) => 0x4
    case ListStatements(_, _) => 0x5
    case ContainsStatement(any, _, _) => if any then 0x7 else 0x6
    case ListContexts(_) => 0x8
    case StatementCount(_) => 0x9
    case IsEmpty(_) => 0x10
    case Query(_, _, _, _) => 0x11
    case IteratorNext(_) => 0x12
    case CurrentStatement(_) => 0x13
    case CurrentNode(_) => 0x14
    case CurrentBindingSet(_) => 0x15
    case IteratorClose(_) => 0x16
    case QueryType(_) => 0x17
    case QueryBoolValue(_) => 0x18
    case SupportedFeatures => 0x19
    case SupportsProtocolVersion(_) => 0x20
    case CreateBlankNode(_) => 0x21
    case RemoveModel(_) => 0x22
  }

  // ----- Requests -----

  // The commands that name a model: the server reads the model id before anything else.
  predicate NamesModel(req: Request) {
    req.ChangeStatement? || req.ListStatements? || req.ContainsStatement? || req.ListContexts? || req.StatementCount? ||
    req.IsEmpty? || req.CreateBlankNode? || req.Query?
  }

  // What follows the model id.
  function EncodePayload(req: Request): seq<byte> {
    match req
    case ChangeStatement(_, _, s) => EncodeStatement(s)
    case ListStatements(_, s) => EncodeStatement(s)
    case ContainsStatement(_, _, s) => EncodeStatement(s)
    case Query(_, query, language, userLanguage) => EncodeBlob(query) + (EncodeU16(language) + EncodeBlob(userLanguage))
    case _ => []
  }

  predicate HasPayload(req: Request) {
    req.ChangeStatement? || req.ListStatements? || req.ContainsStatement? || req.Query?
  }

  // The arguments of the commands that do not name a model.
  function EncodePlainArguments(req: Request): seq<byte> {
    match req
    case CreateModel(name) => EncodeBlob(name)
    case RemoveModel(name) => EncodeBlob(name)
    case IteratorNext(id) => EncodeU32(id)
    case CurrentStatement(id) => EncodeU32(id)
    case CurrentNode(id) => EncodeU32(id)
    case CurrentBindingSet(id) => EncodeU32(id)
    case IteratorClose(id) => EncodeU32(id)
    case QueryType(id) => EncodeU32(id)
    case QueryBoolValue(id) => EncodeU32(id)
    case SupportsProtocolVersion(version) => EncodeU32(version)
    case _ => []
  }

  function EncodeRequest(req: Request): seq<byte> {
    EncodeU16(Command(req)) +
    if NamesModel(req) then EncodeU32(req.model) + EncodePayload(req) else EncodePlainArguments(req)
  }

  predicate ValidRequest(req: Request) {
    (req.ChangeStatement? || req.ListStatements? || req.ContainsStatement?) ==> ValidStatement(req.statement)
  }

  /** The request as the server reads it. */
  function NormalRequest(lex: Lexicon, req: Request): Request {
    match req
    case ChangeStatement(change, model, s) => ChangeStatement(change, model, NormalStatement(lex, s))
    case ListStatements(model, s) => ListStatements(model, NormalStatement(lex, s))
    case ContainsStatement(any, model, s) => ContainsStatement(any, model, NormalStatement(lex, s))
    case _ => req
  }

  /** The server reads the request that was sent, unless it holds a statement that does not come back as it was. */
  lemma RequestIsKept(lex: Lexicon, req: Request)
    ensures NormalRequest(lex, req) == req <==>
              (req.ChangeStatement? || req.ListStatements? || req.ContainsStatement? ==>
                 && CanonicalNode(lex, req.statement.subject) && CanonicalNode(lex, req.statement.predicate_)
                 && CanonicalNode(lex, req.statement.object_) && CanonicalNode(lex, req.statement.context))
    ensures Command(NormalRequest(lex, req)) == Command(req)
  {
    hide CanonicalNode;
    if req.ChangeStatement? || req.ListStatements? || req.ContainsStatement? { CanonicalIsKept(lex, req.statement); }
  }

  lemma LittleEndian(v: uint32, a: byte, b: byte, c: byte, d: byte)
    requires v == a as int + 0x100 * (b as int + 0x100 * (c as int + 0x100 * d as int))
    ensures EncodeU32(v) == [a, b, c, d]
  {
    var u := c as int + 0x100 * d as int;
    var w := b as int + 0x100 * u;
    assert v / 0x100 == w && v % 0x100 == a as int;
    assert w / 0x100 == u && w % 0x100 == b as int;
    assert v / 0x1_0000 == w / 0x100 && v / 0x100_0000 == u / 0x100;
  }

  // A string of one byte.
  lemma OneByte(x: byte)
    ensures EncodeBlob([x]) == [1, 0, 0, 0, x]
  {
  }

  /** Requests on the wire: the command, the id with its lowest byte first, and the arguments in order. */
  lemma RequestsOnTheWire(id: uint32, a: byte, b: byte, c: byte, d: byte, x: byte, y: byte)
    requires id == a as int + 0x100 * (b as int + 0x100 * (c as int + 0x100 * d as int))
    ensures EncodeRequest(IteratorNext(id)) == [0x12, 0, a, b, c, d]
    ensures EncodeRequest(Query(id, [x], 0x0201, [y])) ==
            [0x11, 0, a, b, c, d, 1, 0, 0, 0, x, 1, 2, 1, 0, 0, 0, y]
  {
    hide EncodeU32, EncodeBlob;
    LittleEndian(id, a, b, c, d);
    OneByte(x);
    OneByte(y);
  }

  /** A statement on the wire: subject, predicate, object and context, each behind its kind. */
  lemma StatementsOnTheWire(x: byte, y: byte)
    ensures EncodeStatement(Statement(Blank([x]), Resource([y]), Lit(Plain([x], [y])), Empty)) ==
            [3, 1, 0, 0, 0, x] + [1, 1, 0, 0, 0, y] + [2, 1, 1, 0, 0, 0, x, 1, 0, 0, 0, y] + [0]
  {
    hide EncodeBlob;
    OneByte(x);
    OneByte(y);
  }

  /** An error on the wire: whether it has a place, the code, the message, and line, column, offset and file. */
  lemma ErrorsOnTheWire(x: byte, y: byte)
    ensures EncodeError(Error(true, 3, [x], Locator(1, 2, -2, [y]))) ==
            [1, 3, 0, 0, 0, 1, 0, 0, 0, x] + [1, 0, 0, 0, 2, 0, 0, 0, 0xFE, 0xFF, 0xFF, 0xFF, 1, 0, 0, 0, y]
  {
    hide EncodeBlob;
    OneByte(x);
    OneByte(y);
  }

  // ----- Replies -----

  datatype Body =
    | NoBody
    | Word(word: uint32)
    | Code(code: uint16)
    | Flag(flag: bool)
    | Number(number: int32)
    | Kind(kind: uint8)
    | NodeBody(node: Node)
    | StatementBody(statement: Statement)
    | BindingsBody(bindings: Bindings)

  /** A reply is a body and, except for the protocol version, an error. */
  datatype Reply = Reply(body: Body, error: Error) | VersionReply(supported: bool)

  predicate ValidBody(body: Body) {
    match body
    case Code(code) => code <= 5 || code == 0x1000
    case NodeBody(n) => ValidNode(n)
    case StatementBody(s) => ValidStatement(s)
    case BindingsBody(b) => ValidBindings(b) && Count(b) <= |b.names|
    case _ => true
  }

  // A binding set among the bodies must have been built by insertions of distinct names.
  ghost predicate Faithful(reply: Reply) {
    reply.Reply? ==> ValidBody(reply.body) &&
                     (reply.body.BindingsBody? ==> Coherent(reply.body.bindings) && Distinct(reply.body.bindings.names))
  }

  function EncodeBody(body: Body): seq<byte>
    requires ValidBody(body)
  {
    match body
    case NoBody => []
    case Word(word) => EncodeU32(word)
    case Code(code) => EncodeErrorCode(code)
    case Flag(flag) => EncodeBool(flag)
    case Number(number) => EncodeI32(number)
    case Kind(kind) => EncodeU8(kind)
    case NodeBody(n) => EncodeNode(n)
    case StatementBody(s) => EncodeStatement(s)
    case BindingsBody(b) => EncodeBindings(b)
  }

  predicate ValidReply(reply: Reply) {
    reply.Reply? ==> ValidBody(reply.body)
  }

  function EncodeReply(reply: Reply): seq<byte>
    requires ValidReply(reply)
  {
    match reply
    case Reply(body, error) => EncodeBody(body) + EncodeError(error)
    case VersionReply(supported) => EncodeBool(supported)
  }

  // Which body the client reads for a request.
  datatype Shape = ShapeNone | ShapeWord | ShapeCode | ShapeFlag | ShapeNumber | ShapeKind | ShapeNode
                 | ShapeStatement | ShapeBindings | ShapeVersion

  function ShapeOf(req: Request): Shape {
    match req
    case CreateModel(_) | SupportedFeatures | ListStatements(_, _) | ListContexts(_) | Query(_, _, _, _) => ShapeWord
    case RemoveModel(_) | IteratorClose(_) => ShapeNone
    case ChangeStatement(_, _, _) => ShapeCode
    case ContainsStatement(_, _, _) | IsEmpty(_) | IteratorNext(_) | QueryBoolValue(_) => ShapeFlag
    case StatementCount(_) => ShapeNumber
    case CreateBlankNode(_) | CurrentNode(_) => ShapeNode
    case CurrentStatement(_) => ShapeStatement
    case CurrentBindingSet(_) => ShapeBindings
    case QueryType(_) => ShapeKind
    case SupportsProtocolVersion(_) => ShapeVersion
  }

  predicate Fits(shape: Shape, reply: Reply) {
    match reply
    case VersionReply(_) => shape.ShapeVersion?
    case Reply(body, _) =>
      match body
      case NoBody => shape.ShapeNone?
      case Word(_) => shape.ShapeWord?
      case Code(_) => shape.ShapeCode?
      case Flag(_) => shape.ShapeFlag?
      case Number(_) => shape.ShapeNumber?
      case Kind(_) => shape.ShapeKind?
      case NodeBody(_) => shape.ShapeNode?
      case StatementBody(_) => shape.ShapeStatement?
      case BindingsBody(_) => shape.ShapeBindings?
  }

  function DecodeBody(lex: Lexicon, shape: Shape, s: seq<byte>): Parse<Body> {
    match shape
    case ShapeNone => Got(NoBody, s)
    case ShapeVersion => Got(NoBody, s)
    case ShapeWord => (match DecodeU32(s) case Got(v, s) => Got(Word(v), s) case Short => Short)
    case ShapeCode => (match DecodeErrorCode(s) case Got(v, s) => Got(Code(v), s) case Short => Short)
    case ShapeFlag => (match DecodeBool(s) case Got(v, s) => Got(Flag(v), s) case Short => Short)
    case ShapeNumber => (match DecodeI32(s) case Got(v, s) => Got(Number(v), s) case Short => Short)
    case ShapeKind => (match DecodeU8(s) case Got(v, s) => Got(Kind(v), s) case Short => Short)
    case ShapeNode => (match DecodeNode(lex, s) case Got(v, s) => Got(NodeBody(v), s) case Short => Short)
    case ShapeStatement =>
      (match DecodeStatement(lex, s) case Got(v, s) => Got(StatementBody(v), s) case Short => Short)
    case ShapeBindings => (match DecodeBindings(lex, s) case Got(v, s) => Got(BindingsBody(v), s) case Short => Short)
  }

  /** What the client makes of the bytes of a reply. */
  function DecodeReply(lex: Lexicon, shape: Shape, s: seq<byte>): Parse<Reply> {
    if shape.ShapeVersion? then
      match DecodeBool(s) case Got(b, s) => Got(VersionReply(b), s) case Short => Short
    else
      match DecodeBody(lex, shape, s)
      case Short => Short
      case Got(body, s) => match DecodeError(s) case Got(e, s) => Got(Reply(body, e), s) case Short => Short
  }

  function NormalBody(lex: Lexicon, body: Body): Body {
    match body
    case NodeBody(n) => NodeBody(NormalNode(lex, n))
    case StatementBody(s) => StatementBody(NormalStatement(lex, s))
    case BindingsBody(b) => BindingsBody(NormalBindings(lex, b))
    case _ => body
  }

  /** The reply as the client reads it. */
  function NormalReply(lex: Lexicon, reply: Reply): Reply {
    match reply
    case Reply(body, error) => Reply(NormalBody(lex, body), NormalError(error))
    case VersionReply(_) => reply
  }

  lemma BodyRoundTrip(lex: Lexicon, shape: Shape, body: Body, rest: seq<byte>)
    requires ValidBody(body) && Fits(shape, Reply(body, NO_ERROR))
    requires body.BindingsBody? ==> Coherent(body.bindings) && Distinct(body.bindings.names)
    ensures DecodeBody(lex, shape, EncodeBody(body) + rest) == Got(NormalBody(lex, body), rest)
  {
    hide EncodeU32, DecodeU32, EncodeBool, DecodeBool, EncodeI32, DecodeI32, EncodeNode, DecodeNode, NormalNode,
         EncodeStatement, DecodeStatement, NormalStatement, EncodeBindings, DecodeBindings, NormalBindings,
         EncodeErrorCode, DecodeErrorCode, ConvertErrorCode, Coherent;
    match body {
      case NoBody => assert [] + rest == rest;
      case Word(word) => U32RoundTrip(word, rest);
      case Code(code) => ErrorCodeRoundTrip(code, rest);
      case Flag(flag) => BoolRoundTrip(flag, rest);
      case Number(number) => I32RoundTrip(number, rest);
      case Kind(kind) => assert (EncodeU8(kind) + rest)[1..] == rest;
      case NodeBody(n) => NodeRoundTrip(lex, n, rest);
      case StatementBody(s) => StatementRoundTrip(lex, s, rest);
      case BindingsBody(b) => BindingsRoundTrip(lex, b, rest);
    }
  }

  lemma ReplyRoundTrip(lex: Lexicon, shape: Shape, reply: Reply, rest: seq<byte>)
    requires Faithful(reply) && Fits(shape, reply)
    ensures DecodeReply(lex, shape, EncodeReply(reply) + rest) == Got(NormalReply(lex, reply), rest)
  {
    hide EncodeBody, DecodeBody, EncodeError, DecodeError, EncodeBool, DecodeBool, NormalBody, NormalError, Coherent;
    match reply {
      case VersionReply(supported) => BoolRoundTrip(supported, rest);
      case Reply(body, error) =>
        assert EncodeReply(reply) + rest == EncodeBody(body) + (EncodeError(error) + rest);
        BodyRoundTrip(lex, shape, body, EncodeError(error) + rest);
        ErrorRoundTrip(error, rest);
    }
  }

  /**
   A reply with a repeated name among its bindings never reaches the client as it is: reading runs short, or
   takes bytes of the error for bindings and is left with another error.
   */
  lemma RepeatedNameGarbles(lex: Lexicon, b: Bindings, error: Error)
    requires ValidBody(BindingsBody(b)) && Coherent(b) && !Distinct(b.names)
    ensures var reply := Reply(BindingsBody(b), error);
            DecodeReply(lex, ShapeBindings, EncodeReply(reply)) != Got(NormalReply(lex, reply), [])
  {
    hide DecodeBindings, EncodeBindings, EncodeError, DecodeError, NormalError, Coherent, Distinct, NormalBindings;
    var rest := EncodeError(error);
    DuplicateNamesRunShort(lex, b, rest);
    var read := DecodeBindings(lex, EncodeBindings(b) + rest);
    if read.Got? {
      var n := |rest| - |read.rest|;
      assert read.rest == rest[n..];
      ErrorIsNoEndOfItself(error, n);
    }
  }

  lemma BodyExtends(lex: Lexicon, shape: Shape, s: seq<byte>, more: seq<byte>)
    ensures Extends(DecodeBody(lex, shape, s), DecodeBody(lex, shape, s + more), more)
  {
    hide DecodeU32, DecodeU16, DecodeBool, DecodeI32, DecodeU8, DecodeNode, DecodeStatement, DecodeBindings;
    NumberExtends(s, more);
    NodeExtends(lex, s, more);
    StatementExtends(lex, s, more);
    BindingsExtend(lex, s, more);
  }

  lemma ReplyExtends(lex: Lexicon, shape: Shape, s: seq<byte>, more: seq<byte>)
    ensures Extends(DecodeReply(lex, shape, s), DecodeReply(lex, shape, s + more), more)
  {
    hide DecodeBody, DecodeError, DecodeBool;
    NumberExtends(s, more);
    BodyExtends(lex, shape, s, more);
    if DecodeBody(lex, shape, s).Got? { ErrorExtends(DecodeBody(lex, shape, s).rest, more); }
  }

  /** The client takes no part of a reply for the reply: it reads all of it or runs short. */
  lemma ReplyPartsAreShort(lex: Lexicon, shape: Shape, reply: Reply, k: nat)
    requires Faithful(reply) && Fits(shape, reply) && k < |EncodeReply(reply)|
    ensures DecodeReply(lex, shape, EncodeReply(reply)[..k]) == Short
  {
    hide DecodeReply, EncodeReply, NormalReply, Coherent, Distinct, Fits;
    var all := EncodeReply(reply);
    ReplyExtends(lex, shape, all[..k], all[k..]);
    ReplyRoundTrip(lex, shape, reply, []);
    assert all[..k] + all[k..] == all + [];
  }
}
