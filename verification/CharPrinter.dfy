/**
  Printing of a char array as C string literals, and a reader of such literals to compare it with.
 */
module CharPrinter {
  import opened Bytes
  import opened Options

  datatype CharFormat = AsIs | HexEscape | SpecialEscape

  // ---------------------------------------------------------------- printing

  predicate IsPrintableAscii(c: Byte) { 0x20 <= c <= 0x7e }

  /** Digits and the letters a to f in both cases. */
  predicate IsXDigit(c: int) { 48 <= c <= 57 || 65 <= c <= 70 || 97 <= c <= 102 }

  function HexDigit(d: int): char
    requires 0 <= d < 16
  {
    if d < 10 then (48 + d) as char else (55 + d) as char
  }

  /** A number in upper-case hexadecimal, without leading zeros. */
  function Hex(c: Byte): string {
    if c < 16 then [HexDigit(c)] else [HexDigit(c / 16), HexDigit(c % 16)]
  }

  /** The letter of a special escape sequence, if the character has one. */
  function EscapeLetter(c: Byte): (letter: Option<char>) {
    match c
    case 0 => Some('0')
    case 7 => Some('a')
    case 8 => Some('b')
    case 9 => Some('t')
    case 10 => Some('n')
    case 11 => Some('v')
    case 12 => Some('f')
    case 13 => Some('r')
    case 34 => Some('"')
    case 92 => Some('\\')
    case _ => None
  }

  ghost function Format(c: Byte): CharFormat {
    if EscapeLetter(c).Some? then SpecialEscape else if IsPrintableAscii(c) then AsIs else HexEscape
  }

  ghost function Escaped(c: Byte): string {
    match Format(c)
    case SpecialEscape => ['\\', EscapeLetter(c).value]
    case AsIs => [c as char]
    case HexEscape => "\\x" + Hex(c)
  }

  /** The literal from here on: a hexadecimal escape is separated from a hexadecimal digit by a break in the literal. */
  ghost function PrintFrom(s: seq<Byte>, previousHex: bool): string {
    if s == [] then "\""
    else
      (if previousHex && IsXDigit(s[0]) then "\" \"" else "") +
      (Escaped(s[0]) + PrintFrom(s[1..], Format(s[0]) == HexEscape))
  }

  // ---------------------------------------------------------------- the spelling, written out

  const HEX_DIGITS := "0123456789ABCDEF"

  /** The bytes between space and tilde that have no escape of their own. */
  predicate IsSpelledAsIs(c: Byte) {
    32 <= c <= 126 && c != 34 && c != 92
  }

  predicate HasLetter(c: Byte) {
    c == 0 || 7 <= c <= 13 || c == 34 || c == 92
  }

  /** The spelling of a byte in a string literal: as it is, by a letter, or by its hexadecimal digits without a leading
      zero. */
  ghost function Spelling(c: Byte): string {
    if IsSpelledAsIs(c) then [c as char]
    else if c == 0 then "\\0" else if c == 7 then "\\a" else if c == 8 then "\\b" else if c == 9 then "\\t"
    else if c == 10 then "\\n" else if c == 11 then "\\v" else if c == 12 then "\\f" else if c == 13 then "\\r"
    else if c == 34 then "\\\"" else if c == 92 then "\\\\"
    else if c < 16 then "\\x" + [HEX_DIGITS[c]] else "\\x" + [HEX_DIGITS[c / 16], HEX_DIGITS[c % 16]]
  }

  /** The closing quote, or a break if the digit c would lengthen a hexadecimal escape, c, and the rest. */
  ghost function Printed(s: seq<Byte>, previousHex: bool): string {
    if s == [] then "\""
    else
      (if previousHex && s[0] as char in "0123456789ABCDEFabcdef" then "\" \"" else "") +
      (Spelling(s[0]) + Printed(s[1..], !IsSpelledAsIs(s[0]) && !HasLetter(s[0])))
  }

  lemma {:induction false} SpellingIs(c: Byte)
    ensures Escaped(c) == Spelling(c)
    ensures Format(c) == HexEscape <==> !IsSpelledAsIs(c) && !HasLetter(c)
    ensures Format(c) == AsIs <==> IsSpelledAsIs(c)
  {
    HexDigitIs(c / 16);
    HexDigitIs(c % 16);
  }

  lemma {:induction false} HexDigitIs(d: int)
    requires 0 <= d < 16
    ensures HexDigit(d) == HEX_DIGITS[d]
  {
  }

  lemma {:induction false} PrintedIs(s: seq<Byte>, previousHex: bool)
    ensures PrintFrom(s, previousHex) == Printed(s, previousHex)
  {
    if s != [] {
      SpellingIs(s[0]);
      XDigitIs(s[0]);
      PrintedIs(s[1..], Format(s[0]) == HexEscape);
    }
  }

  lemma {:induction false} XDigitIs(c: Byte)
    ensures IsXDigit(c) <==> c as char in "0123456789ABCDEFabcdef"
  {
    if IsXDigit(c) {
      var digits := "0123456789ABCDEFabcdef";
      assert c as char == digits[if c <= 57 then c - 48 else if c <= 70 then c - 55 else c - 81];
    }
  }

  // ---------------------------------------------------------------- the printing methods

  /** One character for use inside single quotes: there the single quote is escaped and the double quote is not. */
  method PrintAsCharLiteralTo(c: Byte) returns (text: string, format: CharFormat)
    ensures c == 39 ==> text == "\\'" && format == SpecialEscape
    ensures c == 34 ==> text == "\"" && format == AsIs
    ensures c != 34 && c != 39 ==> text == Escaped(c) && format == Format(c) && text == Spelling(c)
  {
    SpellingIs(c);
    if c == 39 {
      return "\\'", SpecialEscape;
    }
    if c != 34 && EscapeLetter(c).Some? {
      return ['\\', EscapeLetter(c).value], SpecialEscape;
    }
    if IsPrintableAscii(c) {
      return [c as char], AsIs;
    }
    return "\\x" + Hex(c), HexEscape;
  }

  /** One character for use inside double quotes. */
  method PrintAsStringLiteralTo(c: Byte) returns (text: string, format: CharFormat)
    ensures text == Escaped(c) && format == Format(c) && text == Spelling(c)
  {
    SpellingIs(c);
    if c == 39 {
      return "'", AsIs;
    }
    if c == 34 {
      return "\\\"", SpecialEscape;
    }
    text, format := PrintAsCharLiteralTo(c);
  }

  ghost function Print(s: seq<Byte>): string {
    "\"" + PrintFrom(s, false)
  }

  /** Prints the string as adjacent literals.  A reader gets the string back exactly when no NUL stands directly before
      an octal digit. */
  method PrintCharsAsStringTo(s: seq<Byte>) returns (out: string, printFormat: CharFormat)
    ensures out == Print(s) && out == "\"" + Printed(s, false)
    ensures Read(out) == Some(Meaning(s))
    ensures Read(out) == Some(s) <==> !NulBeforeOctalDigit(s)
    ensures printFormat == HexEscape <==> exists k :: 0 <= k < |s| && Format(s[k]) == HexEscape
  {
    PrintedIs(s, false);
    out := "\"";
    var isPreviousHex := false;
    printFormat := AsIs;
    assert s[0..] == s;
    ghost var rest := PrintFrom(s, false);
    for index := 0 to |s|
      invariant rest == PrintFrom(s[index..], isPreviousHex) && out + rest == Print(s)
      invariant printFormat == HexEscape <==> exists k :: 0 <= k < index && Format(s[k]) == HexEscape
    {
      var cur := s[index];
      ghost var before, separator := out, if isPreviousHex && IsXDigit(cur) then "\" \"" else "";
      rest := PrintNext(s, index, isPreviousHex);
      if isPreviousHex && IsXDigit(cur) {
        out := out + "\" " + "\"";
      }
      var text, format := PrintAsStringLiteralTo(cur);
      out := out + text;
      JoinPieces(before, separator, text, rest, out);
      isPreviousHex := format == HexEscape;
      if isPreviousHex {
        printFormat := HexEscape;
      }
    }
    out := out + "\"";
    PrintedReads(s);
  }

  lemma {:induction false} PrintNext(s: seq<Byte>, index: nat, previousHex: bool) returns (rest: string)
    requires index < |s|
    ensures rest == PrintFrom(s[index + 1..], Format(s[index]) == HexEscape)
    ensures PrintFrom(s[index..], previousHex) ==
            (if previousHex && IsXDigit(s[index]) then "\" \"" else "") + (Escaped(s[index]) + rest)
  {
    assert s[index..][1..] == s[index + 1..];
    rest := PrintFrom(s[index + 1..], Format(s[index]) == HexEscape);
  }

  lemma {:induction false} JoinPieces(before: string, b: string, text: string, rest: string, out: string)
    requires out == before + b + text
    ensures before + (b + (text + rest)) == out + rest
  {}

  // ---------------------------------------------------------------- reading

  predicate IsHexDigit(ch: char) { '0' <= ch <= '9' || 'A' <= ch <= 'F' || 'a' <= ch <= 'f' }
  predicate IsOctalDigit(ch: char) { '0' <= ch <= '7' }

  ghost function HexValue(ch: char): int
    requires IsHexDigit(ch)
  {
    if ch <= '9' then ch as int - 48 else if ch <= 'F' then ch as int - 55 else ch as int - 87
  }

  /** How many hexadecimal digits a string starts with. */
  ghost function HexCount(s: string): (n: nat)
    ensures n <= |s|
  {
    if s == "" || !IsHexDigit(s[0]) then 0 else 1 + HexCount(s[1..])
  }

  ghost function HexNumber(s: string, value: int): int
    requires forall k :: 0 <= k < |s| ==> IsHexDigit(s[k])
  {
    if s == "" then value else HexNumber(s[1..], value * 16 + HexValue(s[0]))
  }

  lemma {:induction false} HexCountDigits(s: string)
    ensures forall k :: 0 <= k < HexCount(s) ==> IsHexDigit(s[k])
  {
    if s != "" && IsHexDigit(s[0]) {
      HexCountDigits(s[1..]);
    }
  }

  /** How many of the one to three octal digits of an escape a string starts with. */
  ghost function OctalCount(s: string): (n: nat)
    ensures n <= 3 && n <= |s| && forall k :: 0 <= k < n ==> IsOctalDigit(s[k])
  {
    if s == "" || !IsOctalDigit(s[0]) then 0
    else if |s| == 1 || !IsOctalDigit(s[1]) then 1
    else if |s| == 2 || !IsOctalDigit(s[2]) then 2
    else 3
  }

  ghost function OctalNumber(s: string): int
    requires |s| <= 3 && forall k :: 0 <= k < |s| ==> IsOctalDigit(s[k])
  {
    if |s| == 0 then 0
    else if |s| == 1 then s[0] as int - 48
    else if |s| == 2 then (s[0] as int - 48) * 8 + (s[1] as int - 48)
    else (s[0] as int - 48) * 64 + (s[1] as int - 48) * 8 + (s[2] as int - 48)
  }

  /** The character that a simple escape letter stands for. */
  ghost function LetterValue(ch: char): Option<Byte> {
    match ch
    case 'a' => Some(7)
    case 'b' => Some(8)
    case 't' => Some(9)
    case 'n' => Some(10)
    case 'v' => Some(11)
    case 'f' => Some(12)
    case 'r' => Some(13)
    case '"' => Some(34)
    case '\'' => Some(39)
    case '?' => Some(63)
    case '\\' => Some(92)
    case _ => None
  }

  ghost function Prepend(value: int, rest: Option<seq<Byte>>): Option<seq<Byte>> {
    if 0 <= value < 256 && rest.Some? then Some([value] + rest.value) else None
  }

  /** Reads the rest of a literal behind its opening quotation mark, and the literals after it: hexadecimal escapes take
      all digits that follow, octal ones at most three; adjacent literals are joined. */
  ghost function ReadBody(s: string): Option<seq<Byte>>
    decreases |s|
  {
    if s == "" || s[0] == '\n' then None
    else if s[0] == '"' then ReadNext(s[1..])
    else if s[0] != '\\' then Prepend(s[0] as int, ReadBody(s[1..]))
    else if |s| == 1 then None
    else if LetterValue(s[1]).Some? then Prepend(LetterValue(s[1]).value, ReadBody(s[2..]))
    else if s[1] == 'x' then
      var n := HexCount(s[2..]);
      HexCountDigits(s[2..]);
      if n == 0 then None else Prepend(HexNumber(s[2..][..n], 0), ReadBody(s[2 + n..]))
    else
      var n := OctalCount(s[1..]);
      if n == 0 then None else Prepend(OctalNumber(s[1..][..n]), ReadBody(s[1 + n..]))
  }

  /** What may follow a literal: the end, or spaces and another literal. */
  ghost function ReadNext(s: string): Option<seq<Byte>>
    decreases |s|
  {
    if s == "" then Some([])
    else if s[0] == ' ' then ReadNext(s[1..])
    else if s[0] == '"' then ReadBody(s[1..])
    else None
  }

  ghost function Read(s: string): Option<seq<Byte>> {
    if s == "" || s[0] != '"' then None else ReadBody(s[1..])
  }

  // ---------------------------------------------------------------- reading what was printed

  predicate IsOctal(c: Byte) { 48 <= c <= 55 }

  ghost predicate NulBeforeOctalDigit(s: seq<Byte>) {
    exists k :: 0 <= k < |s| - 1 && s[k] == 0 && IsOctal(s[k + 1])
  }

  /** How many octal digits behind a leading NUL its escape takes in. */
  ghost function Swallowed(s: seq<Byte>): (n: nat)
    requires s != []
    ensures n < |s| && n <= 2 && forall k :: 1 <= k <= n ==> IsOctal(s[k])
  {
    if s[0] != 0 || |s| == 1 || !IsOctal(s[1]) then 0 else if |s| == 2 || !IsOctal(s[2]) then 1 else 2
  }

  /** The character read where the first character was printed. */
  ghost function FirstRead(s: seq<Byte>): Byte
    requires s != []
  {
    var n := Swallowed(s);
    if n == 0 then s[0] else if n == 1 then s[1] - 48 else (s[1] - 48) * 8 + (s[2] - 48)
  }

  /** What the printed string reads as. */
  ghost function Meaning(s: seq<Byte>): seq<Byte> {
    if s == [] then [] else [FirstRead(s)] + Meaning(s[1 + Swallowed(s)..])
  }

  /** The printed form of a character that is not an octal digit, or a break, starts with no octal digit; behind a
      hexadecimal escape nothing printed starts with a hexadecimal digit. */
  lemma {:induction false} PrintedStart(s: seq<Byte>, previousHex: bool)
    ensures var text := PrintFrom(s, previousHex);
            && text != ""
            && (s == [] || !IsOctal(s[0]) ==> !IsOctalDigit(text[0]))
            && (previousHex ==> !IsHexDigit(text[0]))
  {
    if s != [] {
      assert Escaped(s[0])[0] == if Format(s[0]) == AsIs then s[0] as char else '\\';
    }
  }

  lemma {:induction false} ReadHexEscape(c: Byte, tail: string)
    requires Format(c) == HexEscape && tail != "" && !IsHexDigit(tail[0])
    ensures ReadBody(Escaped(c) + tail) == Prepend(c, ReadBody(tail))
  {
    var s, digits := Escaped(c) + tail, Hex(c);
    assert s[2..] == digits + tail;
    HexCountOf(digits, tail);
    assert s[2..][..|digits|] == digits;
    assert s[2 + |digits|..] == tail;
    HexNumberOf(c);
  }

  lemma {:induction false} HexCountOf(digits: string, tail: string)
    requires 1 <= |digits| <= 2 && forall k :: 0 <= k < |digits| ==> IsHexDigit(digits[k])
    requires tail != "" && !IsHexDigit(tail[0])
    ensures HexCount(digits + tail) == |digits|
  {
    var s := digits + tail;
    assert HexCount(tail) == 0;
    if |digits| == 1 {
      assert s[1..] == tail;
    } else {
      var t := [digits[1]] + tail;
      assert t[1..] == tail && HexCount(t) == 1;
      assert s[1..] == t;
    }
  }

  lemma {:induction false} HexNumberOf(c: Byte)
    ensures forall k :: 0 <= k < |Hex(c)| ==> IsHexDigit(Hex(c)[k])
    ensures HexNumber(Hex(c), 0) == c
  {
    var high, low := c / 16, c % 16;
    if c >= 16 {
      var last := [HexDigit(low)];
      assert last[1..] == "";
      assert HexNumber(last, high) == high * 16 + low;
      assert Hex(c)[1..] == last;
    } else {
      assert Hex(c)[1..] == "";
    }
  }

  /** The escape of NUL takes in the octal digits behind it. */
  lemma {:induction false} ReadNul(s: seq<Byte>)
    requires s != [] && s[0] == 0
    ensures ReadBody(PrintFrom(s, false)) == Prepend(FirstRead(s), ReadBody(PrintFrom(s[1 + Swallowed(s)..], false)))
  {
    var n := Swallowed(s);
    var tail := PrintFrom(s[1 + n..], false);
    var digits := if n == 0 then "" else if n == 1 then [s[1] as char] else [s[1] as char, s[2] as char];
    PrintedStart(s[1 + n..], false);
    NulFirst(s, s[1..]);
    DigitsAsIs(s[1..], n, digits, s[1 + n..]);
    ReadOctalEscape(digits, tail);
  }

  lemma {:induction false} ReadOctalEscape(digits: string, tail: string)
    requires |digits| <= 2 && forall k :: 0 <= k < |digits| ==> IsOctalDigit(digits[k])
    requires |digits| == 2 || tail == "" || !IsOctalDigit(tail[0])
    ensures ReadBody("\\0" + (digits + tail)) == Prepend(OctalNumber(['0'] + digits), ReadBody(tail))
  {
    var s, n := "\\0" + (digits + tail), 1 + |digits|;
    assert s[1..] == ['0'] + (digits + tail);
    assert OctalCount(s[1..]) == n;
    assert s[1..][..n] == ['0'] + digits;
    assert s[1 + n..] == tail;
  }

  lemma {:induction false} NulFirst(s: seq<Byte>, rest: seq<Byte>)
    requires s != [] && s[0] == 0 && rest == s[1..]
    ensures PrintFrom(s, false) == "\\0" + PrintFrom(rest, false)
  {
    assert PrintFrom(s, false) == "" + ("\\0" + PrintFrom(rest, false));
  }

  /** Up to two octal digits are printed as they are. */
  lemma {:induction false} DigitsAsIs(s: seq<Byte>, n: nat, digits: string, rest: seq<Byte>)
    requires n <= |s| && n <= 2 && (forall k :: 0 <= k < n ==> IsOctal(s[k])) && rest == s[n..]
    requires digits == if n == 0 then "" else if n == 1 then [s[0] as char] else [s[0] as char, s[1] as char]
    ensures PrintFrom(s, false) == digits + PrintFrom(rest, false)
  {
    if n == 0 {
      NoDigits(s, rest, PrintFrom(rest, false));
    } else if n == 1 {
      DigitAsIs(s, rest);
    } else {
      DigitAsIs(s, s[1..]);
      DigitAsIs(s[1..], rest);
      TwoDigits(s[0] as char, s[1] as char, PrintFrom(s, false), PrintFrom(s[1..], false), PrintFrom(rest, false));
    }
  }

  lemma {:induction false} NoDigits(s: seq<Byte>, rest: seq<Byte>, text: string)
    requires rest == s[0..]
    ensures s == rest && "" + text == text
  {}

  lemma {:induction false} TwoDigits(x: char, y: char, first: string, second: string, third: string)
    requires first == [x] + second && second == [y] + third
    ensures first == [x, y] + third
  {}

  lemma {:induction false} DigitAsIs(s: seq<Byte>, rest: seq<Byte>)
    requires s != [] && IsOctal(s[0]) && rest == s[1..]
    ensures PrintFrom(s, false) == [s[0] as char] + PrintFrom(rest, false)
  {
    assert PrintFrom(s, false) == "" + ([s[0] as char] + PrintFrom(rest, false));
  }

  /** A printed string reads as its meaning. */
  lemma {:induction false} ReadPrinted(s: seq<Byte>, previousHex: bool)
    ensures ReadBody(PrintFrom(s, previousHex)) == Some(Meaning(s))
    decreases |s|, previousHex
  {
    if s == [] {
      assert "\""[1..] == "";
    } else if previousHex && IsXDigit(s[0]) {
      ReadPrinted(s, false);
      BreakIsSkipped(PrintFrom(s, false));
      assert PrintFrom(s, true) == "\" \"" + PrintFrom(s, false);
    } else {
      var c, tail := s[0], PrintFrom(s[1..], Format(s[0]) == HexEscape);
      assert PrintFrom(s, previousHex) == Escaped(c) + tail;
      if c == 0 {
        assert PrintFrom(s, false) == Escaped(c) + tail;
        ReadNul(s);
        ReadPrinted(s[1 + Swallowed(s)..], false);
      } else {
        ReadPrinted(s[1..], Format(c) == HexEscape);
        PrintedStart(s[1..], Format(c) == HexEscape);
        ReadOther(c, tail);
      }
    }
  }

  lemma {:induction false} PrintedReads(s: seq<Byte>)
    ensures Read(Print(s)) == Some(Meaning(s))
    ensures Read(Print(s)) == Some(s) <==> !NulBeforeOctalDigit(s)
  {
    assert Print(s)[1..] == PrintFrom(s, false);
    ReadPrinted(s, false);
    MeaningIsInputIff(s);
  }

  lemma {:induction false} ReadOther(c: Byte, tail: string)
    requires c != 0 && tail != "" && (Format(c) == HexEscape ==> !IsHexDigit(tail[0]))
    ensures ReadBody(Escaped(c) + tail) == Prepend(c, ReadBody(tail))
  {
    var s := Escaped(c) + tail;
    match Format(c) {
      case AsIs => assert s[1..] == tail;
      case SpecialEscape => assert s[2..] == tail;
      case HexEscape => ReadHexEscape(c, tail);
    }
  }

  lemma {:induction false} BreakIsSkipped(text: string)
    ensures ReadBody("\" \"" + text) == ReadBody(text)
  {
    var s, t, u := "\" \"" + text, " \"" + text, "\"" + text;
    assert u[1..] == text && ReadNext(u) == ReadBody(text);
    assert t[1..] == u && ReadNext(t) == ReadNext(u);
    assert s[1..] == t;
  }

  /** The meaning is the string itself exactly when no NUL stands directly before an octal digit. */
  lemma {:induction false} MeaningIsInputIff(s: seq<Byte>)
    ensures Meaning(s) == s <==> !NulBeforeOctalDigit(s)
    ensures |Meaning(s)| <= |s|
    decreases |s|
  {
    if s != [] {
      var n := Swallowed(s);
      MeaningIsInputIff(s[1 + n..]);
      if n > 0 {
        assert s[0] == 0 && IsOctal(s[0 + 1]);
        assert |Meaning(s)| < |s|;
      } else {
        NulBehindFirst(s, s[1..]);
        SameTail(s[0], s[1..], Meaning(s[1..]));
      }
    }
  }

  lemma {:induction false} SameTail(x: Byte, a: seq<Byte>, b: seq<Byte>)
    ensures [x] + b == [x] + a <==> b == a
  {
    assert ([x] + a)[1..] == a && ([x] + b)[1..] == b;
  }

  lemma {:induction false} NulBehindFirst(s: seq<Byte>, rest: seq<Byte>)
    requires s != [] && Swallowed(s) == 0 && rest == s[1..]
    ensures NulBeforeOctalDigit(s) <==> NulBeforeOctalDigit(rest)
    ensures s == [s[0]] + rest
  {
    if NulBeforeOctalDigit(rest) {
      var k :| 0 <= k < |rest| - 1 && rest[k] == 0 && IsOctal(rest[k + 1]);
      assert s[k + 1] == 0 && IsOctal(s[k + 1 + 1]);
    }
    if NulBeforeOctalDigit(s) {
      var k :| 0 <= k < |s| - 1 && s[k] == 0 && IsOctal(s[k + 1]);
      assert k > 0 && rest[k - 1] == 0 && IsOctal(rest[k - 1 + 1]);
    }
  }
}
