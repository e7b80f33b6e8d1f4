/**
 Nodes, literal values, statements and errors as the codec sees them
 (soprano/node.cpp, soprano/literalvalue.cpp, soprano/error.cpp).
 */
module Rdf {
  import opened Bytes

  /**
   A literal value.  The typed values are a variant and a datatype URI; the variants without a binary form
   on the wire (64-bit and unsigned integers, doubles, dates, times) are given by kind and printed form.
   */
  datatype Literal =
    | Invalid
    | Plain(text: Blob, language: Blob)
    | Text(text: Blob, dataType: Blob)
    | Int(number: int32, dataType: Blob)
    | Boolean(truth: bool, dataType: Blob)
    | Binary(bytes: Blob, dataType: Blob)
    | DateTime(secs: int, msec: int, dataType: Blob)   // seconds since 1970 in UTC, and milliseconds
    | Lexical(kind: int32, text: Blob, dataType: Blob)

  datatype Node =
    | Empty
    | Resource(uri: Blob)
    | Blank(id: Blob)
    | Lit(value: Literal)

  datatype Statement = Statement(subject: Node, predicate_: Node, object_: Node, context: Node)

  datatype Locator = Locator(line: int32, column: int32, offset: int32, fileName: Blob)

  datatype Error = Error(parser: bool, code: int32, message: Blob, locator: Locator)

  // QVariant::Type
  const KIND_INVALID: int32 := 0
  const KIND_BOOL: int32 := 1
  const KIND_INT: int32 := 2
  const KIND_STRING: int32 := 10
  const KIND_BYTE_ARRAY: int32 := 12
  const KIND_DATE_TIME: int32 := 16
  const KIND_URL: int32 := 17

  const NATIVE_KINDS: set<int> := {KIND_BOOL, KIND_INT, KIND_STRING, KIND_BYTE_ARRAY, KIND_DATE_TIME, KIND_URL}

  const XSD_STRING := Ascii("http://www.w3.org/2001/XMLSchema#string")
  const XSD_INT := Ascii("http://www.w3.org/2001/XMLSchema#int")
  const XSD_BOOLEAN := Ascii("http://www.w3.org/2001/XMLSchema#boolean")
  const XSD_BASE64 := Ascii("http://www.w3.org/2001/XMLSchema#base64Binary")
  const XSD_DATE_TIME := Ascii("http://www.w3.org/2001/XMLSchema#dateTime")

  const NO_LOCATOR := Locator(-1, -1, -1, [])
  const NO_ERROR := Error(false, 0, [], NO_LOCATOR)

  const ERROR_UNKNOWN: int32 := 0x1000
  const ERROR_INVALID_ARGUMENT: int32 := 1

  const EMPTY_STATEMENT := Statement(Empty, Empty, Empty, Empty)

  predicate ValidLiteral(l: Literal) {
    match l
    case Invalid => false
    case DateTime(_, msec, _) => 0 <= msec < 1000
    case Lexical(kind, _, _) => kind !in NATIVE_KINDS && kind != KIND_INVALID
    case _ => true
  }

  // The Node constructors make an empty node of an empty URI, an empty identifier or an invalid literal.
  predicate ValidNode(n: Node) {
    match n
    case Empty => true
    case Resource(uri) => uri != []
    case Blank(id) => id != []
    case Lit(value) => ValidLiteral(value)
  }

  predicate ValidStatement(s: Statement) {
    ValidNode(s.subject) && ValidNode(s.predicate_) && ValidNode(s.object_) && ValidNode(s.context)
  }

  predicate ValidError(e: Error) {
    !e.parser ==> e.locator == NO_LOCATOR
  }

  function ErrorMessage(code: int32): Blob {
    match code
    case 0 => Ascii("Success")
    case 1 => Ascii("Invalid argument")
    case 2 => Ascii("Unsupported operation")
    case 3 => Ascii("Parsing failed")
    case 4 => Ascii("Permission denied")
    case 5 => Ascii("Timeout")
    case _ => Ascii("Unknown error")
  }

  // Error::Error( message, code ): an empty message is filled in for the predefined codes.
  function MakeError(message: Blob, code: int32): Error {
    Error(false, code, if message == [] && code < ERROR_UNKNOWN then ErrorMessage(code) else message, NO_LOCATOR)
  }

  // ErrorCache::setError: an error with the code of success clears the last error.
  function Remembered(error: Error): Error {
    if error.code == 0 then NO_ERROR else error
  }

  function ConvertErrorCode(code: int): uint16 {
    if 0 <= code <= 5 then code else 0x1000
  }
}
