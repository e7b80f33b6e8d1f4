/**
 The read and write methods of soprano/datastream.cpp over a stream in each direction.  The primitive read
 and write behave as Transport proves of both transports on a connection without failures.
 */
module DataStreams {
  import opened Bytes
  import opened Rdf
  import opened BindingSets
  import opened Codec

  class DataStream {
    const lex: Lexicon
    var input: seq<byte>
    var output: seq<byte>

    constructor (lex: Lexicon)
      ensures this.lex == lex && input == [] && output == []
    {
      this.lex := lex;
      input, output := [], [];
    }

    method Read(size: nat) returns (ok: bool, data: seq<byte>)
      modifies this`input
      ensures Delivers(old(input), size, ok, data, input)
    {
      ok := size <= |input|;
      data := if ok then input[..size] else input;
      input := input[|data|..];
    }

    method Write(data: seq<byte>)
      modifies this`output
      ensures output == old(output) + data
    {
      output := output + data;
    }

    // ----- Writing -----

    method WriteUnsignedInt8(v: uint8)
      modifies this`output
      ensures output == old(output) + EncodeU8(v)
    {
      Write([v]);
    }

    method WriteUnsignedInt16(v: uint16)
      modifies this`output
      ensures output == old(output) + EncodeU16(v)
    {
      Write([v % 0x100, v / 0x100]);
    }

    method WriteUnsignedInt32(v: uint32)
      modifies this`output
      ensures output == old(output) + EncodeU32(v)
    {
      Write([v % 0x100, v / 0x100 % 0x100, v / 0x1_0000 % 0x100, v / 0x100_0000]);
    }

    method WriteInt32(v: int32)
      modifies this`output
      ensures output == old(output) + EncodeI32(v)
    {
      WriteUnsignedInt32(if v < 0 then v + 0x1_0000_0000 else v);
    }

    method WriteBool(b: bool)
      modifies this`output
      ensures output == old(output) + EncodeBool(b)
    {
      WriteUnsignedInt8(if b then 1 else 0);
    }

    // Also writeString and writeUrl.
    method WriteByteArray(a: Blob)
      modifies this`output
      ensures output == old(output) + EncodeBlob(a)
    {
      hide EncodeU32;
      WriteUnsignedInt32(|a|);
      Write(a);
    }

    method WriteErrorCode(code: uint16)
      modifies this`output
      ensures output == old(output) + EncodeErrorCode(code)
    {
      WriteUnsignedInt16(code);
    }

    method WriteLocator(l: Locator)
      modifies this`output
      ensures output == old(output) + EncodeLocator(l)
    {
      hide EncodeI32, EncodeBlob;
      WriteInt32(l.line);
      WriteInt32(l.column);
      WriteInt32(l.offset);
      WriteByteArray(l.fileName);
    }

    method WriteError(e: Error)
      modifies this`output
      ensures output == old(output) + EncodeError(e)
    {
      hide EncodeI32, EncodeBlob, EncodeBool, EncodeLocator;
      WriteBool(e.parser);
      WriteInt32(e.code);
      WriteByteArray(e.message);
      if e.parser { WriteLocator(e.locator); }
    }

    method WritePayload(l: Literal)
      modifies this`output
      ensures output == old(output) + Payload(l)
    {
      hide EncodeI32, EncodeBlob, EncodeBool, EncodeU32;
      match l {
        case Plain(text, language) => WriteByteArray(text); WriteByteArray(language);
        case Text(text, _) => WriteByteArray(text);
        case Int(number, _) => WriteInt32(number);
        case Boolean(truth, _) => WriteBool(truth);
        case Binary(bytes, _) => WriteByteArray(bytes);
        case DateTime(secs, _, _) => WriteUnsignedInt32(ToTimeT(secs));
        case Lexical(_, text, dataType) => WriteByteArray(text); WriteByteArray(dataType);
        case Invalid => WriteByteArray([]); WriteByteArray([]);
      }
    }

    method WriteLiteralValue(l: Literal)
      modifies this`output
      ensures output == old(output) + EncodeLiteral(l)
    {
      hide EncodeI32, EncodeBool, Payload, Kind;
      WriteBool(l.Plain?);
      if !l.Plain? { WriteInt32(Kind(l)); }
      WritePayload(l);
    }

    method WriteNode(n: Node)
      modifies this`output
      ensures output == old(output) + EncodeNode(n)
    {
      hide EncodeLiteral, EncodeBlob;
      match n {
        case Empty => WriteUnsignedInt8(0);
        case Resource(uri) => WriteUnsignedInt8(1); WriteByteArray(uri);
        case Lit(value) => WriteUnsignedInt8(2); WriteLiteralValue(value);
        case Blank(id) => WriteUnsignedInt8(3); WriteByteArray(id);
      }
    }

    method WriteStatement(s: Statement)
      modifies this`output
      ensures output == old(output) + EncodeStatement(s)
    {
      hide EncodeNode;
      WriteNode(s.subject);
      WriteNode(s.predicate_);
      WriteNode(s.object_);
      WriteNode(s.context);
    }

    method WriteBindingSet(b: Bindings)
      requires |b.names| < 0x1_0000_0000 && Count(b) <= |b.names|
      modifies this`output
      ensures output == old(output) + EncodeBindings(b)
    {
      hide EncodeU32, EncodeBlob, EncodeNode, ValueAt;
      WriteUnsignedInt32(|b.names|);
      ghost var start := output;
      assert output == start + EncodeEntries(b, 0);
      for i := 0 to Count(b)
        invariant output == start + EncodeEntries(b, i)
      {
        WriteByteArray(b.names[i]);
        WriteNode(ValueAt(b, i));
      }
    }

    // ----- Reading -----

    method ReadUnsignedInt8() returns (ok: bool, v: uint8)
      modifies this`input
      ensures match DecodeU8(old(input))
              case Got(value, rest) => ok && v == value && input == rest
              case Short => !ok && input == []
    {
      var data;
      ok, data := Read(1);
      v := if ok then data[0] else 0;
    }

    method ReadUnsignedInt16() returns (ok: bool, v: uint16)
      modifies this`input
      ensures match DecodeU16(old(input))
              case Got(value, rest) => ok && v == value && input == rest
              case Short => !ok && v == 0 && input == []
    {
      var data;
      ok, data := Read(2);
      v := if ok then data[0] as int + 0x100 * data[1] as int else 0;
    }

    method ReadUnsignedInt32() returns (ok: bool, v: uint32)
      modifies this`input
      ensures match DecodeU32(old(input))
              case Got(value, rest) => ok && v == value && input == rest
              case Short => !ok && v == 0 && input == []
    {
      var data;
      ok, data := Read(4);
      v := if ok
           then data[0] as int + 0x100 * data[1] as int + 0x1_0000 * data[2] as int + 0x100_0000 * data[3] as int
           else 0;
    }

    method ReadInt32() returns (ok: bool, v: int32)
      modifies this`input
      ensures match DecodeI32(old(input))
              case Got(value, rest) => ok && v == value && input == rest
              case Short => !ok && v == 0 && input == []
    {
      hide DecodeU32;
      var u;
      ok, u := ReadUnsignedInt32();
      v := if u < 0x8000_0000 then u as int else u as int - 0x1_0000_0000;
    }

    method ReadBool() returns (ok: bool, b: bool)
      modifies this`input
      ensures match DecodeBool(old(input))
              case Got(value, rest) => ok && b == value && input == rest
              case Short => !ok && input == []
    {
      var v;
      ok, v := ReadUnsignedInt8();
      b := v != 0;
    }

    // Also readString and readUrl.
    method ReadByteArray() returns (ok: bool, a: Blob)
      modifies this`input
      ensures match DecodeBlob(old(input))
              case Got(value, rest) => ok && a == value && input == rest
              case Short => !ok && input == []
    {
      hide DecodeU32;
      var len, data;
      ok, len := ReadUnsignedInt32();
      a := [];
      if !ok { return; }
      ok, data := Read(len);
      if ok { a := data; }
    }

    method ReadErrorCode() returns (ok: bool, code: uint16)
      modifies this`input
      ensures match DecodeErrorCode(old(input))
              case Got(value, rest) => ok && code == value && input == rest
              case Short => !ok && input == []
    {
      hide DecodeU16;
      var v;
      ok, v := ReadUnsignedInt16();
      code := ConvertErrorCode(v);
    }

    method ReadLocator() returns (ok: bool, l: Locator)
      modifies this`input
      ensures match DecodeLocator(old(input))
              case Got(value, rest) => ok && l == value && input == rest
              case Short => !ok && input == []
    {
      hide DecodeI32, DecodeBlob;
      l := NO_LOCATOR;
      var line, column, offset, fileName;
      ok, line := ReadInt32();
      if !ok { return; }
      ok, column := ReadInt32();
      if !ok { return; }
      ok, offset := ReadInt32();
      if !ok { return; }
      ok, fileName := ReadByteArray();
      if !ok { return; }
      l := Locator(line, column, offset, fileName);
    }

    method ReadError() returns (ok: bool, e: Error)
      modifies this`input
      ensures match DecodeError(old(input))
              case Got(value, rest) => ok && e == value && input == rest
              case Short => !ok && input == []
    {
      hide DecodeI32, DecodeBlob, DecodeBool, DecodeLocator, MakeError;
      e := NO_ERROR;
      var isParserError, code, message;
      ok, isParserError := ReadBool();
      if !ok { return; }
      ok, code := ReadInt32();
      if !ok { return; }
      ok, message := ReadByteArray();
      if !ok { return; }
      if isParserError {
        var loc;
        ok, loc := ReadLocator();
        if !ok { return; }
        e := Error(true, code, message, loc);
      } else {
        e := MakeError(message, code);
      }
    }

    method ReadPlainLiteral() returns (ok: bool, l: Literal)
      modifies this`input
      ensures match DecodePlain(old(input))
              case Got(value, rest) => ok && l == value && input == rest
              case Short => !ok && input == []
    {
      hide DecodeBlob;
      l := Invalid;
      var v, lang;
      ok, v := ReadByteArray();
      if !ok { return; }
      ok, lang := ReadByteArray();
      if ok { l := Plain(v, lang); }
    }

    method ReadTypedLiteral(kind: int32) returns (ok: bool, l: Literal)
      modifies this`input
      ensures match DecodeTyped(lex, kind, old(input))
              case Got(value, rest) => ok && l == value && input == rest
              case Short => !ok && input == []
    {
      hide DecodeBlob, DecodeI32, DecodeBool, DecodeU32, FromString;
      l := Invalid;
      if kind == KIND_STRING {
        var str;
        ok, str := ReadByteArray();
        l := Text(str, XSD_STRING);
      } else if kind == KIND_URL {
        var url;
        ok, url := ReadByteArray();
      } else if kind == KIND_INT {
        var integer;
        ok, integer := ReadInt32();
        l := Int(integer, XSD_INT);
      } else if kind == KIND_BOOL {
        var boolean;
        ok, boolean := ReadBool();
        l := Boolean(boolean, XSD_BOOLEAN);
      } else if kind == KIND_BYTE_ARRAY {
        var array_;
        ok, array_ := ReadByteArray();
        l := Binary(array_, XSD_BASE64);
      } else if kind == KIND_DATE_TIME {
        var timet;
        ok, timet := ReadUnsignedInt32();
        l := DateTime(timet, 0, XSD_DATE_TIME);
      } else {
        var str, dt;
        ok, str := ReadByteArray();
        if !ok { return; }
        ok, dt := ReadByteArray();
        if ok { l := FromString(lex, str, dt); }
      }
    }

    method ReadLiteralValue() returns (ok: bool, l: Literal)
      modifies this`input
      ensures match DecodeLiteral(lex, old(input))
              case Got(value, rest) => ok && l == value && input == rest
              case Short => !ok && input == []
    {
      hide DecodeBool, DecodeI32, DecodePlain, DecodeTyped;
      l := Invalid;
      var plain;
      ok, plain := ReadBool();
      if !ok { return; }
      if plain {
        ok, l := ReadPlainLiteral();
      } else {
        var t;
        ok, t := ReadInt32();
        if !ok { return; }
        ok, l := ReadTypedLiteral(t);
      }
    }

    method ReadNode() returns (ok: bool, n: Node)
      modifies this`input
      ensures match DecodeNode(lex, old(input))
              case Got(value, rest) => ok && n == value && input == rest
              case Short => !ok && input == []
    {
      hide DecodeU8, DecodeLiteral, DecodeBlob;
      n := Empty;
      var kind;
      ok, kind := ReadUnsignedInt8();
      if !ok { return; }
      if kind == 2 {
        var v;
        ok, v := ReadLiteralValue();
        if ok { n := MakeLiteral(v); }
      } else if kind == 1 {
        var url;
        ok, url := ReadByteArray();
        if ok { n := if url == [] then Empty else Resource(url); }
      } else if kind == 3 {
        var id;
        ok, id := ReadByteArray();
        if ok { n := if id == [] then Empty else Blank(id); }
      }
    }

    // The statement stays empty if any of its nodes cannot be read.
    method ReadStatement() returns (ok: bool, s: Statement)
      modifies this`input
      ensures match DecodeStatement(lex, old(input))
              case Got(value, rest) => ok && s == value && input == rest
              case Short => !ok && s == EMPTY_STATEMENT && input == []
    {
      hide DecodeNode;
      s := EMPTY_STATEMENT;
      var subject, predicate_, object_, context;
      ok, subject := ReadNode();
      if !ok { return; }
      ok, predicate_ := ReadNode();
      if !ok { return; }
      ok, object_ := ReadNode();
      if !ok { return; }
      ok, context := ReadNode();
      if !ok { return; }
      s := Statement(subject, predicate_, object_, context);
    }

    method ReadEntry() returns (ok: bool, name: Blob, node: Node)
      modifies this`input
      ensures match DecodeEntry(lex, old(input))
              case Got(value, rest) => ok && (name, node) == value && input == rest
              case Short => !ok && input == []
    {
      hide DecodeNode, DecodeBlob;
      node := Empty;
      ok, name := ReadByteArray();
      if ok { ok, node := ReadNode(); }
    }

    method ReadBindingSet() returns (ok: bool, set_: BindingSet)
      modifies this`input
      ensures fresh(set_)
      ensures match DecodeBindings(lex, old(input))
              case Got(value, rest) => ok && set_.State() == value && input == rest
              case Short => !ok && input == []
    {
      hide DecodeU32, DecodeEntry, Coherent;
      set_ := new BindingSet();
      var nb;
      ok, nb := ReadUnsignedInt32();
      if !ok { return; }
      for i := 0 to nb
        invariant fresh(set_) && Coherent(set_.State())
        invariant ok
        invariant DecodeBindings(lex, old(input)) == DecodeEntries(lex, input, set_.State(), nb - i)
      {
        var name, node;
        ok, name, node := ReadEntry();
        if !ok { return; }
        set_.Insert(name, node);
      }
    }
  }
}
