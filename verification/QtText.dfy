/** The parts of QString and QChar that the parsers use, over characters of the C locale. */
module QtText {
  import opened Wrappers

  // QChar::isSpace
  predicate IsSpace(c: char) {
    || c == ' ' || '\t' <= c <= '\r' || c == '\U{0085}' || c == '\U{00A0}' || c == '\U{1680}' || c == '\U{180E}'
    || '\U{2000}' <= c <= '\U{200A}' || c == '\U{2028}' || c == '\U{2029}' || c == '\U{202F}' || c == '\U{205F}'
    || c == '\U{3000}'
  }

  predicate IsDigit(c: char) {
    '0' <= c <= '9'
  }

  predicate AllDigits(s: string) {
    forall i | 0 <= i < |s| :: IsDigit(s[i])
  }

  // ----- Numbers -----

  function DigitOf(n: nat): char
    requires n < 10
  {
    '0' + n as char
  }

  function Digits(n: nat): (s: string)
    ensures |s| >= 1
    decreases n
  {
    if n < 10 then [DigitOf(n)] else Digits(n / 10) + [DigitOf(n % 10)]
  }

  function Zeros(n: nat): string {
    seq(n, _ => '0')
  }

  // QString::arg( int, width, 10, '0' )
  function Padded(n: nat, width: nat): string {
    var s := Digits(n);
    if |s| >= width then s else Zeros(width - |s|) + s
  }

  function Value(s: string): nat
    requires AllDigits(s)
  {
    if s == "" then 0 else 10 * Value(s[..|s| - 1]) + (s[|s| - 1] - '0') as nat
  }

  function SkipSpace(s: string): string {
    if s != "" && IsSpace(s[0]) then SkipSpace(s[1..]) else s
  }

  function DropSpace(s: string): string {
    if s != "" && IsSpace(s[|s| - 1]) then DropSpace(s[..|s| - 1]) else s
  }

  function Signed(n: nat, negative: bool): int {
    if negative then 0 - n else n
  }

  function Unsigned(s: string, negative: bool): Option<int> {
    if s == "" || !AllDigits(s) then None
    else
      var v := Signed(Value(s), negative);
      if -0x8000_0000 <= v < 0x8000_0000 then Some(v) else None
  }

  /** QString::toInt: white space around it, a sign, and decimal digits with a value of 32 bits. */
  function ToInt(s: string): Option<int> {
    var t := DropSpace(SkipSpace(s));
    if t == "" then None
    else if t[0] == '-' then Unsigned(t[1..], true)
    else if t[0] == '+' then Unsigned(t[1..], false)
    else Unsigned(t, false)
  }

  lemma {:induction false} DigitsValue(n: nat)
    ensures AllDigits(Digits(n)) && Value(Digits(n)) == n
    decreases n
  {
    if n >= 10 {
      DigitsValue(n / 10);
      var s := Digits(n);
      assert s[..|s| - 1] == Digits(n / 10);
    }
  }

  lemma {:induction false} LeadingZeros(n: nat, s: string)
    requires AllDigits(s)
    ensures AllDigits(Zeros(n) + s) && Value(Zeros(n) + s) == Value(s)
    decreases |s|, n
  {
    var t := Zeros(n) + s;
    if s != "" {
      LeadingZeros(n, s[..|s| - 1]);
      assert t[..|t| - 1] == Zeros(n) + s[..|s| - 1];
    } else if n > 0 {
      LeadingZeros(n - 1, s);
      assert t[..|t| - 1] == Zeros(n - 1) + s;
    }
  }

  lemma PaddedValue(n: nat, width: nat)
    ensures AllDigits(Padded(n, width)) && Value(Padded(n, width)) == n && |Padded(n, width)| >= width
    ensures Padded(n, width) != ""
  {
    DigitsValue(n);
    LeadingZeros(if |Digits(n)| >= width then 0 else width - |Digits(n)|, Digits(n));
  }

  lemma NoSpaceToDrop(s: string)
    requires s != "" && !IsSpace(s[0]) && !IsSpace(s[|s| - 1])
    ensures DropSpace(SkipSpace(s)) == s
  {
  }

  /** What is printed, with any padding and a minus sign for negative numbers, reads back. */
  lemma PrintedReads(n: nat, width: nat, negative: bool)
    requires n < 0x8000_0000
    ensures ToInt((if negative then "-" else "") + Padded(n, width)) == Some(Signed(n, negative))
  {
    hide Padded, Value;
    PaddedValue(n, width);
    var p := Padded(n, width);
    var s := (if negative then "-" else "") + p;
    assert s[|s| - 1] == p[|p| - 1] && IsDigit(p[0]) && IsDigit(p[|p| - 1]);
    NoSpaceToDrop(s);
    if negative { assert s[1..] == p; } else { assert s == p; }
  }

  predicate AllSpace(s: string) {
    forall i | 0 <= i < |s| :: IsSpace(s[i])
  }

  lemma {:induction false} SpaceIsSkipped(space: string, s: string)
    requires AllSpace(space) && (s == "" || !IsSpace(s[0]))
    ensures SkipSpace(space + s) == s
    decreases |space|
  {
    if space != "" {
      assert (space + s)[1..] == space[1..] + s;
      SpaceIsSkipped(space[1..], s);
    } else {
      assert space + s == s;
    }
  }

  lemma {:induction false} SpaceIsDropped(s: string, space: string)
    requires AllSpace(space) && (s == "" || !IsSpace(s[|s| - 1]))
    ensures DropSpace(s + space) == s
    decreases |space|
  {
    if space != "" {
      var n := |space| - 1;
      assert (s + space)[..|s + space| - 1] == s + space[..n] && (s + space)[|s + space| - 1] == space[n];
      SpaceIsDropped(s, space[..n]);
    } else {
      assert s + space == s;
    }
  }

  /** White space before and behind a number and a plus sign make no difference. */
  lemma SpaceAndPlusAreIgnored(before: string, plus: bool, n: nat, width: nat, behind: string)
    requires AllSpace(before) && AllSpace(behind) && n < 0x8000_0000
    ensures ToInt(before + ((if plus then "+" else "") + Padded(n, width)) + behind) == Some(n)
  {
    hide Padded, Value, SkipSpace, DropSpace;
    PaddedValue(n, width);
    var p := Padded(n, width);
    var s := (if plus then "+" else "") + p;
    assert s[|s| - 1] == p[|p| - 1] && IsDigit(p[0]) && IsDigit(p[|p| - 1]);
    assert before + s + behind == before + (s + behind) && (s + behind)[0] == s[0];
    SpaceIsSkipped(before, s + behind);
    SpaceIsDropped(s, behind);
    if plus { assert s[1..] == p; } else { assert s == p; }
  }

  lemma TwoDigits(n: nat)
    requires n < 100
    ensures |Padded(n, 2)| == 2 && ToInt(Padded(n, 2)) == Some(n)
  {
    PrintedReads(n, 2, false);
    assert "" + Padded(n, 2) == Padded(n, 2);
    if n >= 10 { assert Digits(n) == Digits(n / 10) + [DigitOf(n % 10)]; }
  }

  // ----- Searching and cutting -----

  // QString::indexOf
  function IndexOf(s: string, c: char, from: nat): (pos: int)
    ensures -1 <= pos < |s| && (pos >= 0 ==> from <= pos && s[pos] == c)
    ensures forall i | from <= i < |s| && (pos < 0 || i < pos) :: s[i] != c
    decreases |s| - from
  {
    if from >= |s| then -1 else if s[from] == c then from else IndexOf(s, c, from + 1)
  }

  // QString::mid; a negative length takes the rest.
  function Mid(s: string, pos: nat, n: int): string {
    if pos >= |s| then ""
    else if n < 0 || pos + n > |s| then s[pos..] else s[pos..pos + n]
  }
}
