/**
 Printing and parsing of plain literals and blank nodes in N3
 (literalToN3 and blankToN3 in soprano/node.cpp, soprano/n3nodeparser.cpp).
 */
module N3 {
  import opened Wrappers
  import opened QtText

  const BACKSPACE := '\U{0008}'
  const FORM_FEED := '\U{000C}'

  datatype Node =
    | Empty
    | Blank(id: string)
    | Plain(text: string, language: string)
    | Unmodelled                       // resources, typed literals and bare tokens

  // ----- Printing -----

  // The letter that follows the backslash in the escape table; None for characters printed as they are.
  function EscapeLetter(c: char): Option<char> {
    match c
    case '\\' => Some('\\')
    case '\n' => Some('n')
    case '\r' => Some('r')
    case '\t' => Some('t')
    case '\"' => Some('\"')
    case '\'' => Some('\'')
    case _ => if c == BACKSPACE then Some('b') else if c == FORM_FEED then Some('f') else None
  }

  function EscapeChar(c: char): string {
    var letter := EscapeLetter(c);
    if letter.None? then [c] else ['\\', letter.value]
  }

  function Escaped(text: string): string {
    if text == "" then "" else EscapeChar(text[0]) + Escaped(text[1..])
  }

  lemma {:induction false} EscapedAppend(text: string, c: char)
    ensures Escaped(text + [c]) == Escaped(text) + EscapeChar(c)
  {
    if text == "" {
      assert text + [c] == [c] && Escaped([c]) == EscapeChar(c) + Escaped("");
    } else {
      EscapedAppend(text[1..], c);
      assert (text + [c])[1..] == text[1..] + [c];
    }
  }

  function PlainToN3(text: string, language: string): string {
    if language == "" then "\"" + Escaped(text) + "\"" else "\"" + Escaped(text) + "\"@" + language
  }

  method LiteralToN3(text: string, language: string) returns (n3: string)
    ensures n3 == PlainToN3(text, language)
  {
    var s := "";
    for i := 0 to |text|
      invariant s == Escaped(text[..i])
    {
      EscapedAppend(text[..i], text[i]);
      assert text[..i + 1] == text[..i] + [text[i]];
      s := s + EscapeChar(text[i]);
    }
    assert text[..|text|] == text;
    n3 := if language == "" then "\"" + s + "\"" else "\"" + s + "\"@" + language;
  }

  function BlankToN3(id: string): string {
    if id == "" then id else "_:" + id
  }

  // ----- Decoding -----

  // The character an escape sequence stands for; the parser knows four of the eight that are printed.
  function DecodeLetter(c: char): Option<char> {
    match c
    case '\\' => Some('\\')
    case 'n' => Some('\n')
    case 'r' => Some('\r')
    case '\"' => Some('\"')
    case _ => None
  }

  function Decoded(s: string): string {
    if |s| < 2 then s
    else if s[0] != '\\' then [s[0]] + Decoded(s[1..])
    else match DecodeLetter(s[1])
      case Some(c) => [c] + Decoded(s[2..])
      case None => [s[0]] + Decoded(s[1..])
  }

  // QString::indexOf for the backslash
  method IndexOfBackslash(s: string, from: nat) returns (pos: int)
    requires from <= |s|
    ensures pos == -1 ==> forall k | from <= k < |s| :: s[k] != '\\'
    ensures pos != -1 ==> from <= pos < |s| && s[pos] == '\\'
    ensures forall k | from <= k < pos :: s[k] != '\\'
  {
    for i := from to |s|
      invariant forall k | from <= k < i :: s[k] != '\\'
    {
      if s[i] == '\\' { return i; }
    }
    return -1;
  }

  // Text without a backslash in front decodes to itself.
  lemma {:induction false} DecodedPrefix(s: string, from: nat, n: nat)
    requires from <= n <= |s| && forall k | from <= k < n :: s[k] != '\\'
    ensures s[..from] + Decoded(s[from..]) == s[..n] + Decoded(s[n..])
    decreases n - from
  {
    if from < n {
      DecodedPrefix(s, from + 1, n);
      assert s[..from + 1] == s[..from] + [s[from]];
      assert s[from..][1..] == s[from + 1..];
      assert Decoded(s[from..]) == [s[from]] + Decoded(s[from + 1..]);
    }
  }

  // The string after one escape sequence, at pos, has been replaced.
  function Edited(s: string, pos: nat): string
    requires pos + 1 < |s|
  {
    match DecodeLetter(s[pos + 1])
    case Some(c) => s[..pos] + [c] + s[pos + 2..]
    case None => s
  }

  lemma EditDecodes(s: string, pos: nat)
    requires pos + 1 < |s| && s[pos] == '\\'
    ensures s[..pos] + Decoded(s[pos..]) == Edited(s, pos)[..pos + 1] + Decoded(Edited(s, pos)[pos + 1..])
  {
    var e, rest := Edited(s, pos), s[pos..];
    assert rest[1..] == s[pos + 1..] && rest[2..] == s[pos + 2..];
    assert e[..pos + 1] == s[..pos] + [e[pos]];
    if DecodeLetter(s[pos + 1]).Some? {
      assert e[pos + 1..] == s[pos + 2..];
      assert Decoded(rest) == [e[pos]] + Decoded(s[pos + 2..]);
    } else {
      assert Decoded(rest) == [e[pos]] + Decoded(s[pos + 1..]);
    }
  }

  method ReplaceEscape(s: string, pos: nat) returns (edited: string)
    requires pos + 1 < |s| && s[pos] == '\\'
    ensures edited == Edited(s, pos)
  {
    edited := s;
    if s[pos + 1] == '\\' {
      edited := s[..pos] + s[pos + 1..];
    } else if s[pos + 1] == 'n' {
      edited := s[..pos] + ['\n'] + s[pos + 2..];
    } else if s[pos + 1] == 'r' {
      edited := s[..pos] + ['\r'] + s[pos + 2..];
    } else if s[pos + 1] == '\"' {
      edited := s[..pos] + s[pos + 1..];
    }
  }

  /** decodeLiteral: edits the string in place, from a moving position. */
  method DecodeLiteral(input: string) returns (s: string)
    ensures s == Decoded(input)
  {
    s := input;
    var pos: int := 0;
    assert s[..0] + Decoded(s[0..]) == Decoded(input);
    while true
      invariant 0 <= pos <= |s|
      invariant s[..pos] + Decoded(s[pos..]) == Decoded(input)
      decreases |s| - pos
    {
      var from := pos;
      pos := IndexOfBackslash(s, from);
      DecodedPrefix(s, from, if pos == -1 then |s| else pos);
      if pos != -1 && |s| > pos + 1 {
        EditDecodes(s, pos);
        s := ReplaceEscape(s, pos);
        pos := pos + 1;
      } else {
        NothingToDecode(s, if pos == -1 then |s| else pos);
        return;
      }
    }
  }

  lemma NothingToDecode(s: string, pos: nat)
    requires |s| - 1 <= pos <= |s|
    ensures s[..pos] + Decoded(s[pos..]) == s
  {
    assert Decoded(s[pos..]) == s[pos..];
  }

  // Tab, backspace, form feed and apostrophe are printed as escapes that the parser does not know.
  predicate Lost(c: char) {
    c == '\t' || c == BACKSPACE || c == FORM_FEED || c == '\''
  }

  // What printing and decoding make of a text: lost characters become their escape sequences.
  function Reread(text: string): string {
    if text == "" then "" else (if Lost(text[0]) then EscapeChar(text[0]) else [text[0]]) + Reread(text[1..])
  }

  lemma DecodedPlain(c: char, rest: string)
    requires c != '\\'
    ensures Decoded([c] + rest) == [c] + Decoded(rest)
  {
    assert ([c] + rest)[1..] == rest;
  }

  lemma DecodedPair(letter: char, rest: string)
    ensures Decoded(['\\', letter] + rest) == match DecodeLetter(letter)
                                             case Some(c) => [c] + Decoded(rest)
                                             case None => ['\\'] + Decoded([letter] + rest)
  {
    var s := ['\\', letter] + rest;
    assert s[1..] == [letter] + rest && s[2..] == rest;
  }

  lemma DecodedStep(c: char, rest: string)
    ensures Decoded(EscapeChar(c) + rest) == (if Lost(c) then EscapeChar(c) else [c]) + Decoded(rest)
  {
    hide Decoded;
    if EscapeLetter(c).None? {
      DecodedPlain(c, rest);
    } else {
      var letter := EscapeLetter(c).value;
      DecodedPair(letter, rest);
      if Lost(c) {
        DecodedPlain(letter, rest);
        assert ['\\'] + ([letter] + Decoded(rest)) == ['\\', letter] + Decoded(rest);
      }
    }
  }

  lemma {:induction false} DecodedEscaped(text: string)
    ensures Decoded(Escaped(text)) == Reread(text)
  {
    hide EscapeChar, Lost;
    if text != "" {
      DecodedEscaped(text[1..]);
      DecodedStep(text[0], Escaped(text[1..]));
    }
  }

  lemma {:induction false} RereadIsSame(text: string)
    ensures |Reread(text)| >= |text|
    ensures Reread(text) == text <==> forall c <- text :: !Lost(c)
  {
    if text != "" {
      RereadIsSame(text[1..]);
      assert text == [text[0]] + text[1..];
      if Lost(text[0]) {
        assert |Reread(text)| > |text|;
      } else {
        assert Reread(text)[1..] == Reread(text[1..]);
      }
    }
  }

  /** Decoding the printed text recovers it if and only if it has no tab, backspace, form feed or apostrophe. */
  lemma DecodeRecoversExactly(text: string)
    ensures Decoded(Escaped(text)) == text <==> forall c <- text :: !Lost(c)
  {
    DecodedEscaped(text);
    RereadIsSame(text);
  }

  // ----- What the escapes stand for -----

  // The string escape sequences of section 6.4 of RDF 1.1 Turtle.
  function Meaning(letter: char): Option<char> {
    match letter
    case 't' => Some('\t')
    case 'b' => Some('\U{0008}')
    case 'n' => Some('\n')
    case 'r' => Some('\r')
    case 'f' => Some('\U{000C}')
    case '\"' => Some('\"')
    case '\'' => Some('\'')
    case '\\' => Some('\\')
    case _ => None
  }

  function Prepended(c: char, s: Option<string>): Option<string> {
    match s case Some(s) => Some([c] + s) case None => None
  }

  /** What a reader of that grammar makes of a text; None if a backslash starts no escape sequence. */
  function Unescaped(s: string): Option<string> {
    if s == "" then Some("")
    else if s[0] != '\\' then Prepended(s[0], Unescaped(s[1..]))
    else if |s| < 2 || Meaning(s[1]).None? then None
    else Prepended(Meaning(s[1]).value, Unescaped(s[2..]))
  }

  lemma LettersMean(c: char)
    ensures var letter := EscapeLetter(c); if letter.Some? then Meaning(letter.value) == Some(c) else c != '\\'
  {
  }

  lemma UnescapedStep(c: char, rest: string)
    requires Unescaped(rest).Some?
    ensures Unescaped(EscapeChar(c) + rest) == Some([c] + Unescaped(rest).value)
  {
    hide EscapeLetter, Meaning;
    LettersMean(c);
    var e := EscapeChar(c) + rest;
    if EscapeLetter(c).None? {
      assert e[1..] == rest;
    } else {
      assert e[0] == '\\' && e[2..] == rest;
    }
  }

  /** Printed text is read back by every reader of the grammar, whatever the text; only the parser here loses some. */
  lemma {:induction false} PrintedIsStandard(text: string)
    ensures Unescaped(Escaped(text)) == Some(text)
  {
    hide EscapeChar;
    if text == "" {
      assert Escaped(text) == "";
    } else {
      PrintedIsStandard(text[1..]);
      UnescapedStep(text[0], Escaped(text[1..]));
      assert [text[0]] + text[1..] == text;
    }
  }

  /** The printed text holds no line end, tab, backspace or form feed. */
  lemma {:induction false} PrintedIsPlain(text: string)
    ensures forall c <- Escaped(text) :: c !in {'\t', '\U{0008}', '\n', '\r', '\U{000C}'}
  {
    if text != "" { PrintedIsPlain(text[1..]); }
  }

  // The escape sequences that only the grammar knows.
  const UNKNOWN_LETTERS := {'t', 'b', 'f', '\''}

  lemma LettersDecode(c: char)
    requires c !in UNKNOWN_LETTERS
    ensures DecodeLetter(c) == Meaning(c)
  {
  }

  /** Unless there is one of those, what the parser decodes is what the grammar says. */
  lemma {:induction false} DecodesAsStandard(s: string)
    requires Unescaped(s).Some? && forall i | 0 < i < |s| && s[i - 1] == '\\' :: s[i] !in UNKNOWN_LETTERS
    ensures Decoded(s) == Unescaped(s).value
  {
    hide DecodeLetter, Meaning;
    if |s| >= 2 {
      if s[0] != '\\' {
        DecodesAsStandard(s[1..]);
      } else {
        LettersDecode(s[1]);
        DecodesAsStandard(s[2..]);
      }
    }
  }

  // ----- Scanning -----

  // A space ends the scan when there is no delimiter; otherwise the delimiter does, unless it is escaped.
  predicate Stops(c: char, delim: Option<char>, escaped: bool) {
    (delim.None? && IsSpace(c)) || (delim == Some(c) && !escaped)
  }

  /** The text up to the stopping character and the input after it; None if the input ends first. */
  function Scanned(input: string, delim: Option<char>, escaped: bool): Option<(string, string)> {
    if input == "" then None
    else if Stops(input[0], delim, escaped) then Some(("", input[1..]))
    else match Scanned(input[1..], delim, input[0] == '\\' && !escaped)
      case None => None
      case Some((text, rest)) => Some(([input[0]] + text, rest))
  }

  // The scan does not stop at an escaped character.
  lemma ScannedStep(c: char, tail: string)
    ensures Scanned(EscapeChar(c) + tail, Some('\"'), false) ==
            match Scanned(tail, Some('\"'), false)
            case None => None
            case Some((text, rest)) => Some((EscapeChar(c) + text, rest))
  {
    var e, input := EscapeChar(c), EscapeChar(c) + tail;
    if |e| == 1 {
      assert input[1..] == tail;
    } else {
      assert input[1..] == [e[1]] + tail && input[1..][1..] == tail;
      if Scanned(tail, Some('\"'), false).Some? {
        var text := Scanned(tail, Some('\"'), false).value.0;
        assert [e[0]] + ([e[1]] + text) == e + text;
      }
    }
  }

  /** The printed text is scanned whole: the scan stops at the printed closing quote, whatever follows. */
  lemma {:induction false} ScanStopsAtClosingQuote(text: string, rest: string)
    ensures Scanned(Escaped(text) + "\"" + rest, Some('\"'), false) == Some((Escaped(text), rest))
  {
    var input := Escaped(text) + "\"" + rest;
    if text == "" {
      assert input[1..] == rest;
    } else {
      hide EscapeChar, Scanned;
      var tail := Escaped(text[1..]) + "\"" + rest;
      ScanStopsAtClosingQuote(text[1..], rest);
      ScannedStep(text[0], tail);
      assert input == EscapeChar(text[0]) + tail;
    }
  }

  /** Without a delimiter the scan stops at the first white space, backslashes or not. */
  lemma {:induction false} ScanStopsAtSpace(word: string, space: char, rest: string, escaped: bool)
    requires IsSpace(space) && forall c <- word :: !IsSpace(c)
    ensures Scanned(word + [space] + rest, None, escaped) == Some((word, rest))
    decreases |word|
  {
    var input := word + [space] + rest;
    if word == "" {
      assert input[1..] == rest;
    } else {
      ScanStopsAtSpace(word[1..], space, rest, word[0] == '\\' && !escaped);
      assert input[1..] == word[1..] + [space] + rest;
      assert [word[0]] + word[1..] == word;
    }
  }

  /** A QTextStream over a string. */
  class TextStream {
    var text: string
    var pos: nat

    ghost predicate Valid()
      reads this
    {
      pos <= |text|
    }

    function Rest(): string
      requires Valid()
      reads this
    {
      text[pos..]
    }

    constructor (text: string)
      ensures Valid() && Rest() == text
    {
      this.text, pos := text, 0;
    }

    predicate AtEnd()
      requires Valid()
      reads this
      ensures AtEnd() <==> Rest() == ""
    {
      pos == |text|
    }

    method ReadChar() returns (c: char)
      requires Valid() && !AtEnd()
      modifies this
      ensures Valid() && [c] + Rest() == old(Rest()) && text == old(text)
    {
      c := text[pos];
      pos := pos + 1;
    }

    method SkipWhiteSpace()
      requires Valid()
      modifies this
      ensures Valid() && Rest() == SpaceSkipped(old(Rest())) && text == old(text)
    {
      while pos < |text| && IsSpace(text[pos])
        invariant Valid() && text == old(text)
        invariant SpaceSkipped(Rest()) == SpaceSkipped(old(Rest()))
      {
        assert Rest()[1..] == text[pos + 1..];
        pos := pos + 1;
      }
    }

    // operator>>( QString& ): a word, after white space.
    method ReadWord() returns (word: string)
      requires Valid()
      modifies this
      ensures Valid() && text == old(text)
      ensures (word, Rest()) == Word(SpaceSkipped(old(Rest())))
    {
      SkipWhiteSpace();
      ghost var start := Rest();
      word := "";
      assert "" + Word(start).0 == Word(start).0;
      while pos < |text| && !IsSpace(text[pos])
        invariant Valid() && text == old(text)
        invariant Word(start) == (word + Word(Rest()).0, Word(Rest()).1)
      {
        assert Rest()[1..] == text[pos + 1..];
        assert word + ([text[pos]] + Word(text[pos + 1..]).0) == (word + [text[pos]]) + Word(text[pos + 1..]).0;
        word := word + [text[pos]];
        pos := pos + 1;
      }
      assert word + "" == word;
    }
  }

  function SpaceSkipped(s: string): string {
    if s == "" || !IsSpace(s[0]) then s else SpaceSkipped(s[1..])
  }

  // The characters before the first space, and the rest.
  function Word(s: string): (string, string) {
    if s == "" || IsSpace(s[0]) then ("", s)
    else var (word, rest) := Word(s[1..]); ([s[0]] + word, rest)
  }

  /** scanStream: reads up to the delimiter and appends to str; false if the stream ends first. */
  method ScanStream(s: TextStream, str: string, delim: Option<char>) returns (found: bool, scanned: string)
    requires s.Valid()
    modifies s
    ensures s.Valid() && s.text == old(s.text)
    ensures match Scanned(old(s.Rest()), delim, false)
            case None => !found && s.Rest() == ""
            case Some((text, rest)) => found && scanned == str + text && s.Rest() == rest
  {
    ghost var goal := Scanned(s.Rest(), delim, false);
    scanned := str;
    ghost var read := "";
    assert goal.Some? ==> "" + goal.value.0 == goal.value.0;
    var escapeCnt := 0;
    while true
      invariant s.Valid() && s.text == old(s.text) && escapeCnt in {0, 1} && scanned == str + read
      invariant goal == match Scanned(s.Rest(), delim, escapeCnt == 1)
                        case None => None
                        case Some((text, rest)) => Some((read + text, rest))
      decreases |s.text| - s.pos
    {
      if s.AtEnd() { return false, scanned; }
      ghost var before := s.Rest();
      var c := s.ReadChar();
      assert before[0] == c && before[1..] == s.Rest();
      if (delim.None? && IsSpace(c)) || (delim == Some(c) && escapeCnt == 0) {
        assert read + "" == read;
        return true, scanned;
      } else if c == '\\' {
        escapeCnt := (escapeCnt + 1) % 2;
      } else {
        escapeCnt := 0;
      }
      assert forall text :: read + ([c] + text) == (read + [c]) + text;
      read := read + [c];
      scanned := scanned + [c];
    }
  }

  // ----- Parsing -----

  /** parseNode on the text after the opening quote of a literal, and after "_". */
  function ParsedLiteral(s: string): Node {
    match Scanned(s, Some('\"'), false)
    case None => Empty
    case Some((val, rest)) =>
      if rest == "" || IsSpace(rest[0]) then Plain(Decoded(val), "")
      else if rest[0] == '@' then Plain(Decoded(val), Word(SpaceSkipped(rest[1..])).0)
      else if rest[0] == '^' then Unmodelled
      else Empty
  }

  function ParsedBlank(s: string): Node {
    if s != "" && s[0] == ':' then
      var id := Word(SpaceSkipped(s[1..])).0;
      if id == "" then Empty else Blank(id)
    else Empty
  }

  function Parsed(s: string): Node {
    var s := SpaceSkipped(s);
    if s == "" then Empty
    else if s[0] == '_' then ParsedBlank(s[1..])
    else if s[0] == '\"' then ParsedLiteral(s[1..])
    else Unmodelled
  }

  method ParseLiteral(s: TextStream) returns (node: Node)
    requires s.Valid()
    modifies s
    ensures s.Valid() && node == ParsedLiteral(old(s.Rest()))
  {
    ghost var scan := Scanned(s.Rest(), Some('\"'), false);
    var found, val := ScanStream(s, "", Some('\"'));
    if !found { return Empty; }
    assert "" + scan.value.0 == scan.value.0;
    val := DecodeLiteral(val);
    if s.AtEnd() { return Plain(val, ""); }
    ghost var rest := s.Rest();
    var c := s.ReadChar();
    assert rest[0] == c && rest[1..] == s.Rest();
    if IsSpace(c) {
      return Plain(val, "");
    } else if c == '@' {
      var lang := s.ReadWord();
      return Plain(val, lang);
    } else if c == '^' {
      return Unmodelled;
    } else {
      return Empty;
    }
  }

  method ParseBlank(s: TextStream) returns (node: Node)
    requires s.Valid()
    modifies s
    ensures s.Valid() && node == ParsedBlank(old(s.Rest()))
  {
    if s.AtEnd() { return Empty; }
    ghost var rest := s.Rest();
    var c := s.ReadChar();
    assert rest[0] == c && rest[1..] == s.Rest();
    if c != ':' { return Empty; }
    var id := s.ReadWord();
    return if id == "" then Empty else Blank(id);
  }

  method ParseNode(s: TextStream) returns (node: Node)
    requires s.Valid()
    modifies s
    ensures s.Valid() && node == Parsed(old(s.Rest()))
  {
    s.SkipWhiteSpace();
    if s.AtEnd() { return Empty; }
    ghost var rest := s.Rest();
    var c := s.ReadChar();
    assert rest[0] == c && rest[1..] == s.Rest();
    if c == '_' {
      node := ParseBlank(s);
    } else if c == '\"' {
      node := ParseLiteral(s);
    } else {
      node := Unmodelled;
    }
  }

  // ----- Round trips -----

  predicate NoSpace(s: string) {
    forall c <- s :: !IsSpace(c)
  }

  // The end of the text, or white space.
  predicate Separated(rest: string) {
    rest == "" || IsSpace(rest[0])
  }

  lemma {:induction false} WordBeforeSpace(word: string, rest: string)
    requires NoSpace(word) && Separated(rest)
    ensures Word(word + rest) == (word, rest)
  {
    if word == "" {
      assert word + rest == rest;
    } else {
      WordBeforeSpace(word[1..], rest);
      assert (word + rest)[1..] == word[1..] + rest;
      assert word == [word[0]] + word[1..];
    }
  }

  lemma {:induction false} WordHasNoSpace(s: string)
    ensures NoSpace(Word(s).0)
  {
    if s != "" && !IsSpace(s[0]) { WordHasNoSpace(s[1..]); }
  }

  lemma PrintedIsParsed(text: string, language: string, rest: string)
    requires Separated(rest)
    ensures Parsed(PlainToN3(text, language) + rest) ==
            Plain(Decoded(Escaped(text)), if language == "" then "" else Word(SpaceSkipped(language + rest)).0)
  {
    hide Escaped, Decoded, Scanned, Word, SpaceSkipped, Parsed;
    var suffix := if language == "" then rest else "@" + (language + rest);
    var body := Escaped(text) + "\"" + suffix;
    assert "\"" + body == PlainToN3(text, language) + rest;
    ParsedFromQuote(body);
    ScanStopsAtClosingQuote(text, suffix);
    if language != "" { assert suffix[1..] == language + rest; }
  }

  lemma ParsedFromQuote(body: string)
    ensures Parsed("\"" + body) == ParsedLiteral(body)
  {
    hide Scanned, Word, Decoded;
    var n3 := "\"" + body;
    assert n3[0] == '\"' && n3[1..] == body;
    assert SpaceSkipped(n3) == n3;
  }

  lemma FirstWord(word: string, rest: string)
    requires word != "" && Separated(rest)
    ensures Word(SpaceSkipped(word + rest)).0 == word <==> NoSpace(word)
  {
    WordHasNoSpace(SpaceSkipped(word + rest));
    if NoSpace(word) {
      assert (word + rest)[0] == word[0];
      WordBeforeSpace(word, rest);
    }
  }

  /**
   Parsing a printed plain literal, at the end of the text or before white space, gives its text back if
   and only if nothing in it is lost, and gives its language tag back if and only if that holds no white space.
   */
  lemma PlainLiteralRoundTrip(text: string, language: string, rest: string)
    requires Separated(rest)
    ensures var node := Parsed(PlainToN3(text, language) + rest);
            && node.Plain?
            && (node.text == text <==> forall c <- text :: !Lost(c))
            && (node.language == language <==> NoSpace(language))
  {
    PrintedIsParsed(text, language, rest);
    DecodeRecoversExactly(text);
    if language != "" { FirstWord(language, rest); }
  }

  /** A blank node survives printing and parsing if and only if its identifier holds no white space. */
  lemma BlankNodeRoundTrip(id: string, rest: string)
    requires id != "" && Separated(rest)
    ensures Parsed(BlankToN3(id) + rest) == Blank(id) <==> NoSpace(id)
  {
    hide Word, ParsedLiteral;
    var n3 := BlankToN3(id) + rest;
    assert n3[1..] == ":" + id + rest && n3[1..][1..] == id + rest;
    assert SpaceSkipped(n3) == n3;
    FirstWord(id, rest);
  }

  lemma {:induction false} SpaceIsSkipped(space: string, s: string)
    requires forall c <- space :: IsSpace(c)
    ensures SpaceSkipped(space + s) == SpaceSkipped(s)
    decreases |space|
  {
    if space == "" {
      assert space + s == s;
    } else {
      assert (space + s)[1..] == space[1..] + s;
      SpaceIsSkipped(space[1..], s);
    }
  }

  /** White space in front of a node makes no difference. */
  lemma LeadingSpaceIsSkipped(space: string, s: string)
    requires forall c <- space :: IsSpace(c)
    ensures Parsed(space + s) == Parsed(s)
  {
    hide ParsedBlank, ParsedLiteral, SpaceSkipped;
    SpaceIsSkipped(space, s);
  }

  /** Anything else behind the closing quote makes it no node; and so does the lack of the quote. */
  lemma BrokenLiteralsAreEmpty(text: string, next: char, rest: string)
    requires !IsSpace(next) && next != '@' && next != '^'
    ensures Parsed("\"" + (Escaped(text) + "\"" + ([next] + rest))) == Empty
    ensures Parsed("\"" + Escaped(text)) == Empty
  {
    hide Escaped, Scanned, Parsed, Word, Decoded;
    ScanStopsAtClosingQuote(text, [next] + rest);
    ParsedFromQuote(Escaped(text) + "\"" + ([next] + rest));
    ParsedFromQuote(Escaped(text));
    NoClosingQuote(text);
  }

  lemma {:induction false} NoClosingQuote(text: string)
    ensures Scanned(Escaped(text), Some('\"'), false) == None
  {
    hide EscapeChar, Scanned;
    if text == "" {
      assert Scanned("", Some('\"'), false) == None by { NothingToScan(); }
    } else {
      NoClosingQuote(text[1..]);
      ScannedStep(text[0], Escaped(text[1..]));
    }
  }

  lemma NothingToScan()
    ensures Scanned("", Some('\"'), false) == None
  {
  }
}
