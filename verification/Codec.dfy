/**
 The binary codec of soprano/datastream.cpp: what each write appends, what each read makes of the
 bytes in front of it, and that reading undoes writing whatever follows.
 */
module Codec {
  import opened Bytes
  import opened Rdf
  import opened BindingSets

  /**
   LiteralValue::fromString on a printed form and a datatype URI.  Printing and parsing of numbers, dates and
   times are Qt's; the codec is proved for every such conversion.
   */
  type Lexicon = (Blob, Blob) -> Literal

  function FromString(lex: Lexicon, text: Blob, dataType: Blob): Literal {
    if text == [] && dataType == [] then Invalid else lex(text, dataType)
  }

  // ----- Literal values -----

  // QDateTime::toTime_t(): 32 bits, with the largest value for times that do not fit.
  function ToTimeT(secs: int): uint32 {
    if 0 <= secs < 0xFFFF_FFFF then secs else 0xFFFF_FFFF
  }

  // The bytes of a literal after the flag that tells plain from typed values, and the kind of typed ones.
  function Kind(l: Literal): int32
    requires !l.Plain?
  {
    match l
    case Text(_, _) => KIND_STRING
    case Int(_, _) => KIND_INT
    case Boolean(_, _) => KIND_BOOL
    case Binary(_, _) => KIND_BYTE_ARRAY
    case DateTime(_, _, _) => KIND_DATE_TIME
    case Lexical(kind, _, _) => kind
    case Invalid => KIND_INVALID
  }

  function Payload(l: Literal): seq<byte> {
    match l
    case Plain(text, language) => EncodeBlob(text) + EncodeBlob(language)
    case Text(text, _) => EncodeBlob(text)
    case Int(number, _) => EncodeI32(number)
    case Boolean(truth, _) => EncodeBool(truth)
    case Binary(bytes, _) => EncodeBlob(bytes)
    case DateTime(secs, _, _) => EncodeU32(ToTimeT(secs))
    case Lexical(_, text, dataType) => EncodeBlob(text) + EncodeBlob(dataType)
    case Invalid => EncodeBlob([]) + EncodeBlob([])
  }

  function EncodeLiteral(l: Literal): seq<byte> {
    EncodeBool(l.Plain?) + if l.Plain? then Payload(l) else EncodeI32(Kind(l)) + Payload(l)
  }

  function DecodePlain(s: seq<byte>): Parse<Literal> {
    match DecodeBlob(s)
    case Got(text, s) => (match DecodeBlob(s) case Got(lang, s) => Got(Plain(text, lang), s) case Short => Short)
    case Short => Short
  }

  function DecodeTyped(lex: Lexicon, kind: int32, s: seq<byte>): Parse<Literal> {
    if kind == KIND_STRING then
      match DecodeBlob(s) case Got(text, s) => Got(Text(text, XSD_STRING), s) case Short => Short
    else if kind == KIND_URL then
      // no datatype is known for a URL variant
      match DecodeBlob(s) case Got(_, s) => Got(Invalid, s) case Short => Short
    else if kind == KIND_INT then
      match DecodeI32(s) case Got(number, s) => Got(Int(number, XSD_INT), s) case Short => Short
    else if kind == KIND_BOOL then
      match DecodeBool(s) case Got(truth, s) => Got(Boolean(truth, XSD_BOOLEAN), s) case Short => Short
    else if kind == KIND_BYTE_ARRAY then
      match DecodeBlob(s) case Got(bytes, s) => Got(Binary(bytes, XSD_BASE64), s) case Short => Short
    else if kind == KIND_DATE_TIME then
      match DecodeU32(s) case Got(secs, s) => Got(DateTime(secs, 0, XSD_DATE_TIME), s) case Short => Short
    else
      match DecodeBlob(s)
      case Got(text, s) =>
        (match DecodeBlob(s) case Got(dt, s) => Got(FromString(lex, text, dt), s) case Short => Short)
      case Short => Short
  }

  function DecodeLiteral(lex: Lexicon, s: seq<byte>): Parse<Literal> {
    match DecodeBool(s)
    case Got(plain, s) =>
      if plain then DecodePlain(s)
      else (match DecodeI32(s) case Got(kind, s) => DecodeTyped(lex, kind, s) case Short => Short)
    case Short => Short
  }

  /** What a literal value becomes on the other side. */
  function NormalLiteral(lex: Lexicon, l: Literal): Literal {
    match l
    case Plain(_, _) => l
    case Text(text, _) => Text(text, XSD_STRING)
    case Int(number, _) => Int(number, XSD_INT)
    case Boolean(truth, _) => Boolean(truth, XSD_BOOLEAN)
    case Binary(bytes, _) => Binary(bytes, XSD_BASE64)
    case DateTime(secs, _, _) => DateTime(ToTimeT(secs), 0, XSD_DATE_TIME)
    case Lexical(_, text, dataType) => FromString(lex, text, dataType)
    case Invalid => Invalid
  }

  lemma PlainRoundTrip(text: Blob, language: Blob, rest: seq<byte>)
    ensures DecodePlain((EncodeBlob(text) + EncodeBlob(language)) + rest) == Got(Plain(text, language), rest)
  {
    TwoBlobs(text, language, rest);
  }

  lemma TextRoundTrip(lex: Lexicon, text: Blob, rest: seq<byte>)
    ensures DecodeTyped(lex, KIND_STRING, EncodeBlob(text) + rest) == Got(Text(text, XSD_STRING), rest)
  {
    BlobRoundTrip(text, rest);
  }

  lemma IntRoundTrip(lex: Lexicon, number: int32, rest: seq<byte>)
    ensures DecodeTyped(lex, KIND_INT, EncodeI32(number) + rest) == Got(Int(number, XSD_INT), rest)
  {
    I32RoundTrip(number, rest);
  }

  lemma BooleanRoundTrip(lex: Lexicon, truth: bool, rest: seq<byte>)
    ensures DecodeTyped(lex, KIND_BOOL, EncodeBool(truth) + rest) == Got(Boolean(truth, XSD_BOOLEAN), rest)
  {
    BoolRoundTrip(truth, rest);
  }

  lemma BinaryRoundTrip(lex: Lexicon, bytes: Blob, rest: seq<byte>)
    ensures DecodeTyped(lex, KIND_BYTE_ARRAY, EncodeBlob(bytes) + rest) == Got(Binary(bytes, XSD_BASE64), rest)
  {
    BlobRoundTrip(bytes, rest);
  }

  lemma DateTimeRoundTrip(lex: Lexicon, secs: uint32, rest: seq<byte>)
    ensures DecodeTyped(lex, KIND_DATE_TIME, EncodeU32(secs) + rest) == Got(DateTime(secs, 0, XSD_DATE_TIME), rest)
  {
    U32RoundTrip(secs, rest);
  }

  lemma LexicalRoundTrip(lex: Lexicon, kind: int32, text: Blob, dataType: Blob, rest: seq<byte>)
    requires kind !in NATIVE_KINDS
    ensures DecodeTyped(lex, kind, (EncodeBlob(text) + EncodeBlob(dataType)) + rest) ==
            Got(FromString(lex, text, dataType), rest)
  {
    TwoBlobs(text, dataType, rest);
  }

  lemma PayloadRoundTrip(lex: Lexicon, l: Literal, rest: seq<byte>)
    requires l.Invalid? || ValidLiteral(l)
    ensures l.Plain? ==> DecodePlain(Payload(l) + rest) == Got(NormalLiteral(lex, l), rest)
    ensures !l.Plain? ==> DecodeTyped(lex, Kind(l), Payload(l) + rest) == Got(NormalLiteral(lex, l), rest)
  {
    match l {
      case Plain(text, language) => PlainRoundTrip(text, language, rest);
      case Text(text, _) => TextRoundTrip(lex, text, rest);
      case Int(number, _) => IntRoundTrip(lex, number, rest);
      case Boolean(truth, _) => BooleanRoundTrip(lex, truth, rest);
      case Binary(bytes, _) => BinaryRoundTrip(lex, bytes, rest);
      case DateTime(secs, _, _) => DateTimeRoundTrip(lex, ToTimeT(secs), rest);
      case Lexical(kind, text, dataType) => LexicalRoundTrip(lex, kind, text, dataType, rest);
      case Invalid => LexicalRoundTrip(lex, KIND_INVALID, [], [], rest);
    }
  }

  lemma LiteralRoundTrip(lex: Lexicon, l: Literal, rest: seq<byte>)
    requires l.Invalid? || ValidLiteral(l)
    ensures DecodeLiteral(lex, EncodeLiteral(l) + rest) == Got(NormalLiteral(lex, l), rest)
  {
    hide Payload, DecodePlain, DecodeTyped, NormalLiteral, EncodeI32, DecodeI32, EncodeBool, DecodeBool;
    PayloadRoundTrip(lex, l, rest);
    if l.Plain? {
      FlagRoundTrip(true, Payload(l), rest);
    } else {
      FlagRoundTrip(false, EncodeI32(Kind(l)) + Payload(l), rest);
      assert (EncodeI32(Kind(l)) + Payload(l)) + rest == EncodeI32(Kind(l)) + (Payload(l) + rest);
      I32RoundTrip(Kind(l), Payload(l) + rest);
    }
  }

  lemma FlagRoundTrip(b: bool, s: seq<byte>, rest: seq<byte>)
    ensures DecodeBool((EncodeBool(b) + s) + rest) == Got(b, s + rest)
  {
    assert (EncodeBool(b) + s) + rest == EncodeBool(b) + (s + rest);
    BoolRoundTrip(b, s + rest);
  }

  lemma TwoBlobs(a: Blob, b: Blob, rest: seq<byte>)
    ensures DecodeBlob((EncodeBlob(a) + EncodeBlob(b)) + rest) == Got(a, EncodeBlob(b) + rest)
    ensures DecodeBlob(EncodeBlob(b) + rest) == Got(b, rest)
  {
    assert (EncodeBlob(a) + EncodeBlob(b)) + rest == EncodeBlob(a) + (EncodeBlob(b) + rest);
    BlobRoundTrip(a, EncodeBlob(b) + rest);
    BlobRoundTrip(b, rest);
  }

  /** The literals that come back as they were: canonical datatypes, and times of whole seconds in 32 bits. */
  predicate Canonical(lex: Lexicon, l: Literal) {
    match l
    case Plain(_, _) => true
    case Text(_, dataType) => dataType == XSD_STRING
    case Int(_, dataType) => dataType == XSD_INT
    case Boolean(_, dataType) => dataType == XSD_BOOLEAN
    case Binary(_, dataType) => dataType == XSD_BASE64
    case DateTime(secs, msec, dataType) => 0 <= secs <= 0xFFFF_FFFF && msec == 0 && dataType == XSD_DATE_TIME
    case Lexical(_, text, dataType) => FromString(lex, text, dataType) == l
    case Invalid => true
  }

  /**
   Exactly the canonical literals are unchanged.  A second trip changes nothing for values sent in binary form;
   for values sent in printed form it changes nothing if and only if what the text is parsed to is canonical.
   */
  lemma NormalFormIsIdempotent(lex: Lexicon, l: Literal)
    ensures NormalLiteral(lex, l) == l <==> Canonical(lex, l)
    ensures var once := NormalLiteral(lex, l);
            NormalLiteral(lex, once) == once <==> !l.Lexical? || Canonical(lex, FromString(lex, l.text, l.dataType))
  {
    UnchangedIsCanonical(lex, l);
    UnchangedIsCanonical(lex, NormalLiteral(lex, l));
  }

  lemma UnchangedIsCanonical(lex: Lexicon, l: Literal)
    ensures NormalLiteral(lex, l) == l <==> Canonical(lex, l)
  {
  }

  /**
   A third trip changes nothing, unless the first one already came back as a printed value, and what that is
   parsed to is not canonical.
   */
  lemma ThirdTripChangesNothing(lex: Lexicon, l: Literal)
    ensures var once := NormalLiteral(lex, l);
            var twice := NormalLiteral(lex, once);
            NormalLiteral(lex, twice) == twice <==>
            !once.Lexical? || Canonical(lex, FromString(lex, once.text, once.dataType))
  {
    NormalFormIsIdempotent(lex, NormalLiteral(lex, l));
  }

  /** A conversion that keeps the given datatype needs two trips: the first keeps the datatype, the second loses it. */
  lemma SecondTripLosesDatatype(lex: Lexicon, kind: int32, text: Blob, dataType: Blob, number: int32)
    requires FromString(lex, text, dataType) == Int(number, dataType) && dataType != XSD_INT
    ensures var once := NormalLiteral(lex, Lexical(kind, text, dataType));
            once == Int(number, dataType) && NormalLiteral(lex, once) == Int(number, XSD_INT) != once
  {
  }

  // ----- Nodes and statements -----

  // Node( LiteralValue ), Node( QUrl ) and Node( QString ) make empty nodes of invalid or empty arguments.
  function MakeLiteral(l: Literal): Node {
    if l.Invalid? then Empty else Lit(l)
  }

  function EncodeNode(n: Node): seq<byte> {
    match n
    case Empty => EncodeU8(0)
    case Resource(uri) => EncodeU8(1) + EncodeBlob(uri)
    case Lit(value) => EncodeU8(2) + EncodeLiteral(value)
    case Blank(id) => EncodeU8(3) + EncodeBlob(id)
  }

  function DecodeNode(lex: Lexicon, s: seq<byte>): Parse<Node> {
    match DecodeU8(s)
    case Short => Short
    case Got(kind, s) =>
      if kind == 2 then
        match DecodeLiteral(lex, s) case Got(l, s) => Got(MakeLiteral(l), s) case Short => Short
      else if kind == 1 then
        match DecodeBlob(s) case Got(uri, s) => Got(if uri == [] then Empty else Resource(uri), s) case Short => Short
      else if kind == 3 then
        match DecodeBlob(s) case Got(id, s) => Got(if id == [] then Empty else Blank(id), s) case Short => Short
      else Got(Empty, s)
  }

  function NormalNode(lex: Lexicon, n: Node): Node {
    if n.Lit? then MakeLiteral(NormalLiteral(lex, n.value)) else n
  }

  lemma NodeRoundTrip(lex: Lexicon, n: Node, rest: seq<byte>)
    requires ValidNode(n)
    ensures DecodeNode(lex, EncodeNode(n) + rest) == Got(NormalNode(lex, n), rest)
  {
    var s := EncodeNode(n) + rest;
    hide EncodeLiteral, DecodeLiteral, NormalLiteral, EncodeBlob, DecodeBlob;
    match n {
      case Empty => assert s[1..] == rest;
      case Resource(uri) => assert s[1..] == EncodeBlob(uri) + rest; BlobRoundTrip(uri, rest);
      case Lit(value) => assert s[1..] == EncodeLiteral(value) + rest; LiteralRoundTrip(lex, value, rest);
      case Blank(id) => assert s[1..] == EncodeBlob(id) + rest; BlobRoundTrip(id, rest);
    }
  }

  function EncodeStatement(s: Statement): seq<byte> {
    EncodeNode(s.subject) + (EncodeNode(s.predicate_) + (EncodeNode(s.object_) + EncodeNode(s.context)))
  }

  function DecodeStatement(lex: Lexicon, s: seq<byte>): Parse<Statement> {
    match DecodeNode(lex, s)
    case Short => Short
    case Got(subject, s) => match DecodeNode(lex, s)
      case Short => Short
      case Got(predicate_, s) => match DecodeNode(lex, s)
        case Short => Short
        case Got(object_, s) => match DecodeNode(lex, s)
          case Short => Short
          case Got(context, s) => Got(Statement(subject, predicate_, object_, context), s)
  }

  function NormalStatement(lex: Lexicon, s: Statement): Statement {
    Statement(NormalNode(lex, s.subject), NormalNode(lex, s.predicate_), NormalNode(lex, s.object_),
              NormalNode(lex, s.context))
  }

  lemma StatementRoundTrip(lex: Lexicon, s: Statement, rest: seq<byte>)
    requires ValidStatement(s)
    ensures DecodeStatement(lex, EncodeStatement(s) + rest) == Got(NormalStatement(lex, s), rest)
  {
    hide EncodeNode, DecodeNode, NormalNode;
    var rest3 := EncodeNode(s.context) + rest;
    var rest2 := EncodeNode(s.object_) + rest3;
    var rest1 := EncodeNode(s.predicate_) + rest2;
    assert EncodeStatement(s) + rest == EncodeNode(s.subject) + rest1;
    NodeRoundTrip(lex, s.subject, rest1);
    NodeRoundTrip(lex, s.predicate_, rest2);
    NodeRoundTrip(lex, s.object_, rest3);
    NodeRoundTrip(lex, s.context, rest);
  }

  // ----- What a trip keeps -----

  /**
   A node keeps its kind and its value; of literals sent in binary form only the datatype, milliseconds and times of
   more than 32 bits change.
   */
  lemma WhatIsKept(lex: Lexicon, l: Literal)
    ensures var normal := NormalNode(lex, Lit(l));
            match l
            case Plain(_, _) => normal == Lit(l)
            case Text(text, _) => normal.Lit? && normal.value.Text? && normal.value.text == text
            case Int(number, _) => normal.Lit? && normal.value.Int? && normal.value.number == number
            case Boolean(truth, _) => normal.Lit? && normal.value.Boolean? && normal.value.truth == truth
            case Binary(bytes, _) => normal.Lit? && normal.value.Binary? && normal.value.bytes == bytes
            case DateTime(secs, _, _) =>
              && normal.Lit? && normal.value.DateTime? && normal.value.msec == 0
              && (normal.value.secs == secs <==> 0 <= secs <= 0xFFFF_FFFF)
              && (secs < 0 || secs > 0xFFFF_FFFF ==> normal.value.secs == 0xFFFF_FFFF)
            case Lexical(_, text, dataType) => text == [] && dataType == [] ==> normal == Empty
            case Invalid => normal == Empty
    ensures forall blob :: NormalNode(lex, Resource(blob)) == Resource(blob)
    ensures forall blob :: NormalNode(lex, Blank(blob)) == Blank(blob)
    ensures NormalNode(lex, Empty) == Empty
  {
  }

  // Anything but a literal, or a literal that comes back as it was.
  predicate CanonicalNode(lex: Lexicon, n: Node) {
    n.Lit? ==> !n.value.Invalid? && Canonical(lex, n.value)
  }

  /** A statement comes back as it was if and only if its four nodes do, each in its own place. */
  lemma CanonicalIsKept(lex: Lexicon, s: Statement)
    ensures forall n :: NormalNode(lex, n) == n <==> CanonicalNode(lex, n)
    ensures NormalStatement(lex, s) == s <==>
            CanonicalNode(lex, s.subject) && CanonicalNode(lex, s.predicate_) && CanonicalNode(lex, s.object_) &&
            CanonicalNode(lex, s.context)
  {
    forall n ensures NormalNode(lex, n) == n <==> CanonicalNode(lex, n) {
      if n.Lit? { UnchangedIsCanonical(lex, n.value); }
    }
  }

  // ----- Errors -----

  function EncodeErrorCode(code: uint16): seq<byte> {
    EncodeU16(code)
  }

  function DecodeErrorCode(s: seq<byte>): Parse<uint16> {
    match DecodeU16(s) case Got(v, s) => Got(ConvertErrorCode(v), s) case Short => Short
  }

  lemma ErrorCodeRoundTrip(code: uint16, rest: seq<byte>)
    ensures DecodeErrorCode(EncodeErrorCode(code) + rest) == Got(ConvertErrorCode(code), rest)
    ensures code <= 5 || code == 0x1000 ==> ConvertErrorCode(code) == code
  {
    U16RoundTrip(code, rest);
  }

  function EncodeLocator(l: Locator): seq<byte> {
    EncodeI32(l.line) + (EncodeI32(l.column) + (EncodeI32(l.offset) + EncodeBlob(l.fileName)))
  }

  function DecodeLocator(s: seq<byte>): Parse<Locator> {
    match DecodeI32(s)
    case Short => Short
    case Got(line, s) => match DecodeI32(s)
      case Short => Short
      case Got(column, s) => match DecodeI32(s)
        case Short => Short
        case Got(offset, s) => match DecodeBlob(s)
          case Short => Short
          case Got(fileName, s) => Got(Locator(line, column, offset, fileName), s)
  }

  lemma LocatorRoundTrip(l: Locator, rest: seq<byte>)
    ensures DecodeLocator(EncodeLocator(l) + rest) == Got(l, rest)
  {
    var rest3 := EncodeBlob(l.fileName) + rest;
    var rest2 := EncodeI32(l.offset) + rest3;
    var rest1 := EncodeI32(l.column) + rest2;
    assert EncodeLocator(l) + rest == EncodeI32(l.line) + rest1;
    I32RoundTrip(l.line, rest1);
    I32RoundTrip(l.column, rest2);
    I32RoundTrip(l.offset, rest3);
    BlobRoundTrip(l.fileName, rest);
  }

  function EncodeError(e: Error): seq<byte> {
    EncodeBool(e.parser) +
    (EncodeI32(e.code) + (EncodeBlob(e.message) + if e.parser then EncodeLocator(e.locator) else []))
  }

  function DecodeError(s: seq<byte>): Parse<Error> {
    match DecodeBool(s)
    case Short => Short
    case Got(parser, s) => match DecodeI32(s)
      case Short => Short
      case Got(code, s) => match DecodeBlob(s)
        case Short => Short
        case Got(message, s) =>
          if !parser then Got(MakeError(message, code), s)
          else match DecodeLocator(s)
            case Short => Short
            case Got(locator, s) => Got(Error(true, code, message, locator), s)
  }

  /** Only an empty message of a predefined code changes: it is filled in. */
  function NormalError(e: Error): Error {
    if e.parser then e else MakeError(e.message, e.code)
  }

  lemma ErrorRoundTrip(e: Error, rest: seq<byte>)
    ensures DecodeError(EncodeError(e) + rest) == Got(NormalError(e), rest)
    ensures NormalError(e).code == e.code && NormalError(e).parser == e.parser
    ensures ValidError(e) ==> (NormalError(e) == e <==> e.parser || e.message != [] || e.code >= ERROR_UNKNOWN)
  {
    hide EncodeI32, DecodeI32, EncodeBlob, DecodeBlob, EncodeBool, DecodeBool, EncodeLocator, DecodeLocator,
         ErrorMessage;
    var tail := if e.parser then EncodeLocator(e.locator) else [];
    var rest2 := tail + rest;
    var rest1 := EncodeBlob(e.message) + rest2;
    assert EncodeError(e) + rest == EncodeBool(e.parser) + (EncodeI32(e.code) + rest1);
    BoolRoundTrip(e.parser, EncodeI32(e.code) + rest1);
    I32RoundTrip(e.code, rest1);
    BlobRoundTrip(e.message, rest2);
    if e.parser { LocatorRoundTrip(e.locator, rest); } else { assert rest2 == rest; }
    if e.message == [] && e.code < ERROR_UNKNOWN { MessagesAreFilledIn(e.code); }
  }

  lemma MessagesAreFilledIn(code: int32)
    ensures ErrorMessage(code) != []
  {
  }

  // ----- Binding sets -----

  // The first n entries of a binding set.
  function EncodeEntries(b: Bindings, n: nat): seq<byte>
    requires n <= |b.names|
  {
    if n == 0 then [] else EncodeEntries(b, n - 1) + (EncodeBlob(b.names[n - 1]) + EncodeNode(ValueAt(b, n - 1)))
  }

  /** The number of names, and then as many entries as count() says. */
  function EncodeBindings(b: Bindings): seq<byte>
    requires |b.names| < 0x1_0000_0000 && Count(b) <= |b.names|
  {
    EncodeU32(|b.names|) + EncodeEntries(b, Count(b))
  }

  function DecodeEntry(lex: Lexicon, s: seq<byte>): Parse<(Blob, Node)> {
    match DecodeBlob(s)
    case Short => Short
    case Got(name, s) => match DecodeNode(lex, s) case Got(node, s) => Got((name, node), s) case Short => Short
  }

  function DecodeEntries(lex: Lexicon, s: seq<byte>, b: Bindings, n: nat): Parse<Bindings>
    decreases n
  {
    if n == 0 then Got(b, s)
    else match DecodeEntry(lex, s)
      case Short => Short
      case Got(entry, s) => DecodeEntries(lex, s, Inserted(b, entry.0, entry.1), n - 1)
  }

  function DecodeBindings(lex: Lexicon, s: seq<byte>): Parse<Bindings> {
    match DecodeU32(s) case Got(n, s) => DecodeEntries(lex, s, NO_BINDINGS, n) case Short => Short
  }

  function NormalBindings(lex: Lexicon, b: Bindings): Bindings {
    b.(values := seq(|b.values|, i requires 0 <= i < |b.values| => NormalNode(lex, b.values[i])))
  }

  predicate ValidBindings(b: Bindings) {
    |b.names| < 0x1_0000_0000 && forall n <- b.values :: ValidNode(n)
  }

  lemma NormalBindingsFit(lex: Lexicon, b: Bindings)
    requires Coherent(b)
    ensures var normal := NormalBindings(lex, b);
            && Coherent(normal) && normal.names == b.names && |normal.values| == |b.values| == |b.names|
            && (forall i | 0 <= i < |b.values| :: normal.values[i] == NormalNode(lex, b.values[i]))
  {
  }

  lemma EntryRoundTrip(lex: Lexicon, name: Blob, node: Node, rest: seq<byte>)
    requires ValidNode(node)
    ensures DecodeEntry(lex, (EncodeBlob(name) + EncodeNode(node)) + rest) == Got((name, NormalNode(lex, node)), rest)
  {
    hide EncodeNode, DecodeNode, NormalNode;
    assert (EncodeBlob(name) + EncodeNode(node)) + rest == EncodeBlob(name) + (EncodeNode(node) + rest);
    BlobRoundTrip(name, EncodeNode(node) + rest);
    NodeRoundTrip(lex, node, rest);
  }

  // Reading one more entry inserts it.
  lemma NextEntry(lex: Lexicon, s: seq<byte>, b: Bindings, name: Blob, node: Node, rest: seq<byte>, more: nat)
    requires DecodeEntry(lex, s) == Got((name, node), rest)
    ensures DecodeEntries(lex, s, b, more + 1) == DecodeEntries(lex, rest, Inserted(b, name, node), more)
  {
    hide DecodeEntry;
  }

  // Reading the first n entries inserts them one by one.
  lemma {:induction false} EntriesRoundTrip(lex: Lexicon, b: Bindings, normal: Bindings, n: nat, rest: seq<byte>,
                                            more: nat)
    requires ValidBindings(b) && n <= |b.names| == |b.values| == |normal.values|
    requires forall i | 0 <= i < |b.values| :: normal.values[i] == NormalNode(lex, b.values[i])
    ensures DecodeEntries(lex, EncodeEntries(b, n) + rest, NO_BINDINGS, n + more) ==
            DecodeEntries(lex, rest, FromLists(b.names[..n], normal.values[..n]), more)
    decreases n
  {
    hide EncodeBlob, EncodeNode, DecodeEntry, DecodeEntries, NormalNode, Coherent;
    if n == 0 {
      assert EncodeEntries(b, n) + rest == rest;
    } else {
      var name, node := b.names[n - 1], b.values[n - 1];
      var entry := EncodeBlob(name) + EncodeNode(node);
      var read := FromLists(b.names[..n - 1], normal.values[..n - 1]);
      EntriesRoundTrip(lex, b, normal, n - 1, entry + rest, more + 1);
      assert EncodeEntries(b, n) + rest == EncodeEntries(b, n - 1) + (entry + rest);
      EntryRoundTrip(lex, name, node, rest);
      NextEntry(lex, entry + rest, read, name, normal.values[n - 1], rest, more);
      assert b.names[..n][..n - 1] == b.names[..n - 1] && normal.values[..n][..n - 1] == normal.values[..n - 1];
    }
  }

  /**
   A binding set with distinct names is read back, with exactly the rest left over: the announced number of names
   is then the number of entries written.
   */
  lemma BindingsRoundTrip(lex: Lexicon, b: Bindings, rest: seq<byte>)
    requires Coherent(b) && ValidBindings(b) && Distinct(b.names)
    ensures Count(b) <= |b.names|
    ensures DecodeBindings(lex, EncodeBindings(b) + rest) == Got(NormalBindings(lex, b), rest)
  {
    hide EncodeEntries, EncodeU32, DecodeU32, NormalNode, Coherent, NormalBindings, DecodeEntry;
    CountIsNames(b);
    NormalBindingsFit(lex, b);
    var n, normal := |b.names|, NormalBindings(lex, b);
    var entries := EncodeEntries(b, n);
    assert EncodeBindings(b) + rest == EncodeU32(n) + (entries + rest);
    U32RoundTrip(n, entries + rest);
    EntriesRoundTrip(lex, b, normal, n, rest, 0);
    assert b.names[..n] == b.names && normal.values[..n] == normal.values;
    CoherentIsUnique(FromLists(b.names, normal.values), normal);
  }

  // ----- Every read consumes bytes -----

  // What a successful read leaves: the end of the stream, shorter by n bytes at least.
  predicate Leaves<T>(p: Parse<T>, s: seq<byte>, n: nat) {
    p.Got? ==> |p.rest| + n <= |s| && s[|s| - |p.rest|..] == p.rest
  }

  lemma NumberLeaves(s: seq<byte>)
    ensures Leaves(DecodeI32(s), s, 4) && Leaves(DecodeU32(s), s, 4)
  {
  }

  lemma BlobLeaves(s: seq<byte>)
    ensures Leaves(DecodeBlob(s), s, 4)
  {
    hide DecodeU32;
    NumberLeaves(s);
  }

  lemma PlainLeaves(s: seq<byte>)
    ensures Leaves(DecodePlain(s), s, 0)
  {
    hide DecodeBlob;
    BlobLeaves(s);
    if DecodeBlob(s).Got? { BlobLeaves(DecodeBlob(s).rest); }
  }

  lemma TypedLeaves(lex: Lexicon, kind: int32, s: seq<byte>)
    ensures Leaves(DecodeTyped(lex, kind, s), s, 0)
  {
    hide FromString, DecodeBlob, DecodeI32, DecodeU32;
    NumberLeaves(s);
    BlobLeaves(s);
    if DecodeBlob(s).Got? { BlobLeaves(DecodeBlob(s).rest); }
  }

  lemma LiteralLeaves(lex: Lexicon, s: seq<byte>)
    ensures Leaves(DecodeLiteral(lex, s), s, 0)
  {
    hide DecodePlain, DecodeTyped, DecodeI32;
    if |s| >= 1 {
      var t := s[1..];
      PlainLeaves(t);
      NumberLeaves(t);
      if DecodeI32(t).Got? { TypedLeaves(lex, DecodeI32(t).value, DecodeI32(t).rest); }
    }
  }

  lemma NodeLeaves(lex: Lexicon, s: seq<byte>)
    ensures Leaves(DecodeNode(lex, s), s, 1)
  {
    hide DecodeBlob, DecodeLiteral;
    if |s| >= 1 {
      BlobLeaves(s[1..]);
      LiteralLeaves(lex, s[1..]);
    }
  }

  lemma EntryLeaves(lex: Lexicon, s: seq<byte>)
    ensures Leaves(DecodeEntry(lex, s), s, 5)
  {
    hide DecodeBlob, DecodeNode;
    BlobLeaves(s);
    if DecodeBlob(s).Got? { NodeLeaves(lex, DecodeBlob(s).rest); }
  }

  lemma {:induction false} EntriesLeave(lex: Lexicon, s: seq<byte>, b: Bindings, n: nat)
    ensures Leaves(DecodeEntries(lex, s, b, n), s, 5 * n)
    decreases n
  {
    hide DecodeEntry;
    if n > 0 && DecodeEntry(lex, s).Got? {
      var entry, rest := DecodeEntry(lex, s).value, DecodeEntry(lex, s).rest;
      EntryLeaves(lex, s);
      EntriesLeave(lex, rest, Inserted(b, entry.0, entry.1), n - 1);
    }
  }

  /**
   With a repeated name more entries are announced than written: whatever follows the binding set, reading it
   fails or consumes bytes that are not its own; and it fails if nothing follows.
   */
  lemma DuplicateNamesRunShort(lex: Lexicon, b: Bindings, rest: seq<byte>)
    requires Coherent(b) && ValidBindings(b) && !Distinct(b.names)
    ensures Count(b) < |b.names|
    ensures Leaves(DecodeBindings(lex, EncodeBindings(b) + rest), rest, 5 * (|b.names| - Count(b)))
    ensures rest == [] ==> DecodeBindings(lex, EncodeBindings(b) + rest) == Short
  {
    hide EncodeEntries, EncodeU32, DecodeU32, NormalNode, Coherent, NormalBindings, DecodeEntries, Distinct;
    CountIsNames(b);
    NormalBindingsFit(lex, b);
    var n, normal := Count(b), NormalBindings(lex, b);
    var entries := EncodeEntries(b, n);
    assert EncodeBindings(b) + rest == EncodeU32(|b.names|) + (entries + rest);
    U32RoundTrip(|b.names|, entries + rest);
    EntriesRoundTrip(lex, b, normal, n, rest, |b.names| - n);
    EntriesLeave(lex, rest, FromLists(b.names[..n], normal.values[..n]), |b.names| - n);
  }

  /** A binding set is read back with exactly the rest left over if and only if no name was inserted twice. */
  lemma BindingsReadExactly(lex: Lexicon, b: Bindings, rest: seq<byte>)
    requires Coherent(b) && ValidBindings(b)
    ensures Count(b) <= |b.names|
    ensures DecodeBindings(lex, EncodeBindings(b) + rest) == Got(NormalBindings(lex, b), rest) <==> Distinct(b.names)
  {
    hide DecodeBindings, EncodeBindings, Distinct, NormalBindings, Coherent;
    CountIsNames(b);
    if Distinct(b.names) { BindingsRoundTrip(lex, b, rest); } else { DuplicateNamesRunShort(lex, b, rest); }
  }

  // ----- Nothing is read from a part of its bytes -----

  // More bytes behind do not change what is read.
  predicate Extends<T(==)>(p: Parse<T>, q: Parse<T>, more: seq<byte>) {
    p.Got? ==> q == Got(p.value, p.rest + more)
  }

  lemma NumberExtends(s: seq<byte>, more: seq<byte>)
    ensures Extends(DecodeBool(s), DecodeBool(s + more), more) && Extends(DecodeU8(s), DecodeU8(s + more), more)
    ensures Extends(DecodeU16(s), DecodeU16(s + more), more)
    ensures Extends(DecodeU32(s), DecodeU32(s + more), more) && Extends(DecodeI32(s), DecodeI32(s + more), more)
  {
    if |s| >= 1 { assert (s + more)[1..] == s[1..] + more; }
    if |s| >= 2 { assert (s + more)[2..] == s[2..] + more; }
    if |s| >= 4 { assert (s + more)[4..] == s[4..] + more; }
  }

  lemma BlobExtends(s: seq<byte>, more: seq<byte>)
    ensures Extends(DecodeBlob(s), DecodeBlob(s + more), more)
  {
    hide DecodeU32;
    NumberExtends(s, more);
    if DecodeBlob(s).Got? {
      var n, t := DecodeU32(s).value, DecodeU32(s).rest;
      assert (t + more)[..n] == t[..n] && (t + more)[n..] == t[n..] + more;
    }
  }

  lemma PlainExtends(s: seq<byte>, more: seq<byte>)
    ensures Extends(DecodePlain(s), DecodePlain(s + more), more)
  {
    hide DecodeBlob;
    BlobExtends(s, more);
    if DecodeBlob(s).Got? { BlobExtends(DecodeBlob(s).rest, more); }
  }

  lemma TypedExtends(lex: Lexicon, kind: int32, s: seq<byte>, more: seq<byte>)
    ensures Extends(DecodeTyped(lex, kind, s), DecodeTyped(lex, kind, s + more), more)
  {
    hide FromString, DecodeBlob, DecodeI32, DecodeU32, DecodeBool;
    NumberExtends(s, more);
    BlobExtends(s, more);
    if DecodeBlob(s).Got? { BlobExtends(DecodeBlob(s).rest, more); }
  }

  lemma LiteralExtends(lex: Lexicon, s: seq<byte>, more: seq<byte>)
    ensures Extends(DecodeLiteral(lex, s), DecodeLiteral(lex, s + more), more)
  {
    hide DecodePlain, DecodeTyped, DecodeI32, DecodeBool;
    NumberExtends(s, more);
    if DecodeBool(s).Got? {
      var t := DecodeBool(s).rest;
      PlainExtends(t, more);
      NumberExtends(t, more);
      if DecodeI32(t).Got? { TypedExtends(lex, DecodeI32(t).value, DecodeI32(t).rest, more); }
    }
  }

  lemma NodeExtends(lex: Lexicon, s: seq<byte>, more: seq<byte>)
    ensures Extends(DecodeNode(lex, s), DecodeNode(lex, s + more), more)
  {
    hide DecodeBlob, DecodeLiteral, DecodeU8;
    NumberExtends(s, more);
    if DecodeU8(s).Got? {
      BlobExtends(DecodeU8(s).rest, more);
      LiteralExtends(lex, DecodeU8(s).rest, more);
    }
  }

  lemma StatementExtends(lex: Lexicon, s: seq<byte>, more: seq<byte>)
    ensures Extends(DecodeStatement(lex, s), DecodeStatement(lex, s + more), more)
  {
    hide DecodeNode;
    NodeExtends(lex, s, more);
    if DecodeStatement(lex, s).Got? {
      var s1 := DecodeNode(lex, s).rest;
      var s2 := DecodeNode(lex, s1).rest;
      NodeExtends(lex, s1, more);
      NodeExtends(lex, s2, more);
      NodeExtends(lex, DecodeNode(lex, s2).rest, more);
    }
  }

  lemma LocatorExtends(s: seq<byte>, more: seq<byte>)
    ensures Extends(DecodeLocator(s), DecodeLocator(s + more), more)
  {
    hide DecodeI32, DecodeBlob;
    NumberExtends(s, more);
    if DecodeLocator(s).Got? {
      var s1 := DecodeI32(s).rest;
      var s2 := DecodeI32(s1).rest;
      NumberExtends(s1, more);
      NumberExtends(s2, more);
      BlobExtends(DecodeI32(s2).rest, more);
    }
  }

  lemma ErrorExtends(s: seq<byte>, more: seq<byte>)
    ensures Extends(DecodeError(s), DecodeError(s + more), more)
  {
    hide DecodeBool, DecodeI32, DecodeBlob, DecodeLocator, ErrorMessage;
    NumberExtends(s, more);
    if DecodeError(s).Got? {
      var s1 := DecodeBool(s).rest;
      var s2 := DecodeI32(s1).rest;
      NumberExtends(s1, more);
      BlobExtends(s2, more);
      LocatorExtends(DecodeBlob(s2).rest, more);
    }
  }

  lemma EntryExtends(lex: Lexicon, s: seq<byte>, more: seq<byte>)
    ensures Extends(DecodeEntry(lex, s), DecodeEntry(lex, s + more), more)
  {
    hide DecodeBlob, DecodeNode;
    BlobExtends(s, more);
    if DecodeBlob(s).Got? { NodeExtends(lex, DecodeBlob(s).rest, more); }
  }

  lemma {:induction false} EntriesExtend(lex: Lexicon, s: seq<byte>, b: Bindings, n: nat, more: seq<byte>)
    ensures Extends(DecodeEntries(lex, s, b, n), DecodeEntries(lex, s + more, b, n), more)
    decreases n
  {
    hide DecodeEntry;
    if n > 0 {
      EntryExtends(lex, s, more);
      if DecodeEntry(lex, s).Got? {
        var entry, rest := DecodeEntry(lex, s).value, DecodeEntry(lex, s).rest;
        EntriesExtend(lex, rest, Inserted(b, entry.0, entry.1), n - 1, more);
      }
    }
  }

  lemma BindingsExtend(lex: Lexicon, s: seq<byte>, more: seq<byte>)
    ensures Extends(DecodeBindings(lex, s), DecodeBindings(lex, s + more), more)
  {
    hide DecodeU32, DecodeEntries;
    NumberExtends(s, more);
    if DecodeU32(s).Got? { EntriesExtend(lex, DecodeU32(s).rest, NO_BINDINGS, DecodeU32(s).value, more); }
  }

  /** A node, a statement, an error or a binding set is read from all of its bytes or not at all. */
  lemma NodePartsAreShort(lex: Lexicon, n: Node, k: nat)
    requires ValidNode(n) && k < |EncodeNode(n)|
    ensures DecodeNode(lex, EncodeNode(n)[..k]) == Short
  {
    hide DecodeNode, EncodeNode, NormalNode;
    var all := EncodeNode(n);
    NodeExtends(lex, all[..k], all[k..]);
    NodeRoundTrip(lex, n, []);
    assert all[..k] + all[k..] == all + [];
  }

  lemma StatementPartsAreShort(lex: Lexicon, s: Statement, k: nat)
    requires ValidStatement(s) && k < |EncodeStatement(s)|
    ensures DecodeStatement(lex, EncodeStatement(s)[..k]) == Short
  {
    hide DecodeStatement, EncodeStatement, NormalStatement;
    var all := EncodeStatement(s);
    StatementExtends(lex, all[..k], all[k..]);
    StatementRoundTrip(lex, s, []);
    assert all[..k] + all[k..] == all + [];
  }

  lemma ErrorPartsAreShort(e: Error, k: nat)
    requires k < |EncodeError(e)|
    ensures DecodeError(EncodeError(e)[..k]) == Short
  {
    hide DecodeError, EncodeError, NormalError;
    var all := EncodeError(e);
    ErrorExtends(all[..k], all[k..]);
    ErrorRoundTrip(e, []);
    assert all[..k] + all[k..] == all + [];
  }

  lemma BindingsPartsAreShort(lex: Lexicon, b: Bindings, k: nat)
    requires Coherent(b) && ValidBindings(b) && Distinct(b.names)
    requires Count(b) <= |b.names| && k < |EncodeBindings(b)|
    ensures DecodeBindings(lex, EncodeBindings(b)[..k]) == Short
  {
    hide DecodeBindings, EncodeBindings, NormalBindings, Coherent, Distinct;
    var all := EncodeBindings(b);
    BindingsExtend(lex, all[..k], all[k..]);
    BindingsRoundTrip(lex, b, []);
    assert all[..k] + all[k..] == all + [];
  }

  /**
   What no writer sends: node kinds that do not exist read as empty nodes, and so do empty names; a URL for a value,
   which has no datatype, reads as no literal at all; other error codes read as the unknown error.
   */
  lemma StrangeBytesRead(lex: Lexicon, kind: byte, name: Blob, code: uint16, rest: seq<byte>)
    ensures kind !in {1, 2, 3} ==> DecodeNode(lex, [kind] + rest) == Got(Empty, rest)
    ensures kind in {1, 3} ==> DecodeNode(lex, [kind] + (EncodeBlob([]) + rest)) == Got(Empty, rest)
    ensures DecodeLiteral(lex, EncodeBool(false) + (EncodeI32(17) + (EncodeBlob(name) + rest))) == Got(Invalid, rest)
    ensures DecodeBool([kind] + rest) == Got(kind != 0, rest)
    ensures !(0 <= code <= 5) ==> DecodeErrorCode(EncodeErrorCode(code) + rest) == Got(0x1000, rest)
  {
    hide EncodeBlob, DecodeBlob, EncodeI32, DecodeI32, EncodeU16, DecodeU16;
    assert ([kind] + rest)[1..] == rest;
    assert ([kind] + (EncodeBlob([]) + rest))[1..] == EncodeBlob([]) + rest;
    BlobRoundTrip([], rest);
    BoolRoundTrip(false, EncodeI32(17) + (EncodeBlob(name) + rest));
    I32RoundTrip(17, EncodeBlob(name) + rest);
    BlobRoundTrip(name, rest);
    U16RoundTrip(code, rest);
  }

  // ----- An error cannot be read from a part of its own bytes -----

  // What is read as a whole error is as long as the error, except that a predefined message may be missing.
  lemma ErrorFills(s: seq<byte>, e: Error)
    requires DecodeError(s) == Got(e, [])
    ensures e.parser ==> |s| == |EncodeError(e)|
    ensures !e.parser ==> |s| >= 9 && exists m: Blob :: |s| == 9 + |m| && e == MakeError(m, e.code) && s[9..] == m &&
                                                        DecodeU32(s[5..]) == Got(|m|, m)
  {
    hide DecodeI32, DecodeU32, ErrorMessage;
    var t := s[1..];
    NumberLeaves(t);
    var u := DecodeI32(t).rest;
    assert |u| == |t| - 4 by { NumberIsFour(t); }
    assert u == s[5..];
    NumberLeaves(u);
    assert |DecodeU32(u).rest| == |u| - 4 by { NumberIsFour(u); }
    var m := DecodeBlob(u).value;
    if e.parser {
      LocatorFills(DecodeBlob(u).rest, e.locator);
    } else {
      assert DecodeU32(u) == Got(|m|, m);
      assert s[9..] == m;
    }
  }

  lemma NumberIsFour(s: seq<byte>)
    ensures DecodeI32(s).Got? ==> |DecodeI32(s).rest| == |s| - 4
    ensures DecodeU32(s).Got? ==> |DecodeU32(s).rest| == |s| - 4
  {
  }

  lemma LocatorFills(s: seq<byte>, l: Locator)
    requires DecodeLocator(s) == Got(l, [])
    ensures |s| == |EncodeLocator(l)|
  {
    hide DecodeI32, DecodeU32;
    NumberIsFour(s);
    var s1 := DecodeI32(s).rest;
    NumberIsFour(s1);
    var s2 := DecodeI32(s1).rest;
    NumberIsFour(s2);
    NumberIsFour(DecodeI32(s2).rest);
  }

  lemma ErrorLength(e: Error)
    ensures !e.parser ==> |EncodeError(e)| == 9 + |e.message|
  {
  }

  // The predefined messages are text.
  lemma MessageEnds(code: int32)
    ensures var m := ErrorMessage(code); |m| > 0 && m[|m| - 1] != 0
  {
  }

  lemma ErrorEnds(e: Error)
    requires !e.parser && e.message == ErrorMessage(e.code)
    ensures var all := EncodeError(e); |all| > 0 && all[|all| - 1] != 0
  {
    hide ErrorMessage;
    MessageEnds(e.code);
  }

  lemma MissingMessage(e: Error, m: Blob)
    requires !e.parser && MakeError(m, e.code) == MakeError(e.message, e.code) && |m| < |e.message|
    ensures m == [] && e.message == ErrorMessage(e.code)
  {
    hide ErrorMessage;
  }

  lemma ZeroLength(s: seq<byte>)
    requires DecodeU32(s).Got? && DecodeU32(s).value == 0
    ensures |s| >= 4 && s[3] == 0
  {
  }

  /** No proper end of the bytes of an error reads as the whole error. */
  lemma ErrorIsNoEndOfItself(e: Error, n: nat)
    requires 0 < n <= |EncodeError(e)|
    ensures DecodeError(EncodeError(e)[n..]) != Got(NormalError(e), [])
  {
    hide EncodeError, DecodeError, ErrorMessage, DecodeU32;
    var all, s := EncodeError(e), EncodeError(e)[n..];
    if DecodeError(s) == Got(NormalError(e), []) {
      ErrorLength(e);
      if !e.parser {
        assert !NormalError(e).parser && NormalError(e).code == e.code;
        ErrorFills(s, NormalError(e));
        var m: Blob :| |s| == 9 + |m| && NormalError(e) == MakeError(m, e.code) && s[9..] == m &&
                       DecodeU32(s[5..]) == Got(|m|, m);
        MissingMessage(e, m);
        assert s[5..][3] == all[|all| - 1];
        ZeroLength(s[5..]);
        ErrorEnds(e);
      } else {
        ErrorFills(s, e);
      }
    }
  }
}
