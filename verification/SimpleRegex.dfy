/**
  The simple regular expression engine: validation, backtracking match, and the RE wrapper.
  C strings are sequences without the NUL character; reading at index |s| yields the terminator.
 */
module SimpleRegex {
  import opened Options

  const NUL: char := '\0'
  const SIZE_MAX: int := 0xFFFF_FFFF_FFFF_FFFF

  ghost predicate CString(s: string) {
    NUL !in s
  }

  /** The character at index i of a C string, terminator included. */
  function At(s: string, i: nat): char
    requires i <= |s|
  {
    if i == |s| then NUL else s[i]
  }

  // ---------------------------------------------------------------- character classes

  predicate IsAsciiDigit(ch: char) { '0' <= ch <= '9' }

  /** The 32 punctuation characters of ASCII. */
  predicate IsAsciiPunct(ch: char) { '!' <= ch <= '/' || ':' <= ch <= '@' || '[' <= ch <= '`' || '{' <= ch <= '~' }

  predicate IsRepeat(ch: char) { ch == '?' || ch == '*' || ch == '+' }

  predicate IsAsciiWhiteSpace(ch: char) { ch == ' ' || '\t' <= ch <= '\r' }

  predicate IsAsciiWordChar(ch: char) { 'a' <= ch <= 'z' || 'A' <= ch <= 'Z' || '0' <= ch <= '9' || ch == '_' }

  predicate IsUnsupported(ch: char) {
    ch == '(' || ch == ')' || ch == '[' || ch == ']' || ch == '{' || ch == '}' || ch == '|'
  }

  predicate IsClassLetter(c: char) {
    || c == 'd' || c == 'D' || c == 'f' || c == 'n' || c == 'r' || c == 's'
    || c == 'S' || c == 't' || c == 'v' || c == 'w' || c == 'W'
  }

  predicate IsValidEscape(c: char) { IsAsciiPunct(c) || IsClassLetter(c) }

  predicate AtomMatchesChar(escaped: bool, patternChar: char, ch: char) {
    if escaped then
      match patternChar
      case 'd' => IsAsciiDigit(ch)
      case 'D' => !IsAsciiDigit(ch)
      case 'f' => ch == '\U{0C}'
      case 'n' => ch == '\n'
      case 'r' => ch == '\r'
      case 's' => IsAsciiWhiteSpace(ch)
      case 'S' => !IsAsciiWhiteSpace(ch)
      case 't' => ch == '\t'
      case 'v' => ch == '\U{0B}'
      case 'w' => IsAsciiWordChar(ch)
      case 'W' => !IsAsciiWordChar(ch)
      case _ => IsAsciiPunct(patternChar) && patternChar == ch
    else
      (patternChar == '.' && ch != '\n') || patternChar == ch
  }

  // ---------------------------------------------------------------- the characters, written out

  const DIGITS := "0123456789"
  const SMALL_LETTERS := "abcdefghijklmnopqrstuvwxyz"
  const CAPITAL_LETTERS := "ABCDEFGHIJKLMNOPQRSTUVWXYZ"
  const SPACES := " \U{09}\U{0A}\U{0B}\U{0C}\U{0D}"
  const PUNCTUATION := "^-!\"#$%&'()*+,./:;<=>?@[\\]_`{|}~"

  /** The characters that an atom stands for. */
  ghost predicate StandsFor(escaped: bool, patternChar: char, ch: char) {
    if !escaped then if patternChar == '.' then ch != '\n' else ch == patternChar
    else if patternChar == 'd' then ch in DIGITS
    else if patternChar == 'D' then ch !in DIGITS
    else if patternChar == 's' then ch in SPACES
    else if patternChar == 'S' then ch !in SPACES
    else if patternChar == 'w' then ch in SMALL_LETTERS || ch in CAPITAL_LETTERS || ch in DIGITS || ch == '_'
    else if patternChar == 'W' then ch !in SMALL_LETTERS && ch !in CAPITAL_LETTERS && ch !in DIGITS && ch != '_'
    else if patternChar == 'f' then ch == 12 as char
    else if patternChar == 'n' then ch == 10 as char
    else if patternChar == 'r' then ch == 13 as char
    else if patternChar == 't' then ch == 9 as char
    else if patternChar == 'v' then ch == 11 as char
    else patternChar in PUNCTUATION && ch == patternChar
  }

  lemma {:induction false} DigitsAre(ch: char)
    ensures IsAsciiDigit(ch) <==> ch in DIGITS
  {
    if IsAsciiDigit(ch) {
      assert ch == DIGITS[ch as int - '0' as int];
    }
  }

  lemma {:induction false} SmallLettersAre(ch: char)
    ensures 'a' <= ch <= 'z' <==> ch in SMALL_LETTERS
  {
    if 'a' <= ch <= 'z' {
      assert ch == SMALL_LETTERS[ch as int - 'a' as int];
    }
  }

  lemma {:induction false} CapitalLettersAre(ch: char)
    ensures 'A' <= ch <= 'Z' <==> ch in CAPITAL_LETTERS
  {
    if 'A' <= ch <= 'Z' {
      assert ch == CAPITAL_LETTERS[ch as int - 'A' as int];
    }
  }

  lemma {:induction false} SpacesAre(ch: char)
    ensures IsAsciiWhiteSpace(ch) <==> ch in SPACES
  {
  }

  lemma {:induction false} PunctuationIs(ch: char)
    ensures IsAsciiPunct(ch) <==> ch in PUNCTUATION
  {
  }

  /** Which escapes are valid, which characters are unsupported, and which repeat. */
  lemma {:induction false} SpecialCharacters(ch: char)
    ensures IsValidEscape(ch) <==> ch in PUNCTUATION || ch in "dDfnrsStvwW"
    ensures IsUnsupported(ch) <==> ch in "()[]{}|"
    ensures IsRepeat(ch) <==> ch in "?*+"
  {
    PunctuationIs(ch);
  }

  /** An atom accepts the characters that it stands for. */
  lemma {:induction false} AtomStandsFor(escaped: bool, patternChar: char, ch: char)
    ensures AtomMatchesChar(escaped, patternChar, ch) <==> StandsFor(escaped, patternChar, ch)
  {
    DigitsAre(ch);
    SmallLettersAre(ch);
    CapitalLettersAre(ch);
    SpacesAre(ch);
    PunctuationIs(patternChar);
  }

  // ---------------------------------------------------------------- syntax and language

  datatype Repetition = Once | Optional | Star | Plus

  /** An atom, plain or escaped, with the repetition that follows it. */
  datatype Token = Token(escaped: bool, c: char, rep: Repetition)

  datatype Regex = Regex(hat: bool, tokens: seq<Token>, dollar: bool)

  ghost predicate WellFormedToken(t: Token) {
    && t.c != NUL
    && if t.escaped then IsValidEscape(t.c)
       else t.c != '^' && t.c != '$' && t.c != '\\' && !IsUnsupported(t.c) && !IsRepeat(t.c)
  }

  ghost predicate AllWellFormed(tokens: seq<Token>) {
    forall k :: 0 <= k < |tokens| ==> WellFormedToken(tokens[k])
  }

  ghost predicate WellFormed(r: Regex) {
    AllWellFormed(r.tokens)
  }

  ghost function RenderRep(rep: Repetition): string {
    match rep
    case Once => ""
    case Optional => "?"
    case Star => "*"
    case Plus => "+"
  }

  ghost function RenderAtom(t: Token): string {
    if t.escaped then ['\\', t.c] else [t.c]
  }

  /** The tokens and the optional end anchor, as written. */
  ghost function RenderTail(tokens: seq<Token>, dollar: bool): string {
    if tokens == [] then (if dollar then "$" else "")
    else RenderAtom(tokens[0]) + RenderRep(tokens[0].rep) + RenderTail(tokens[1..], dollar)
  }

  ghost function Render(r: Regex): string {
    (if r.hat then "^" else "") + RenderTail(r.tokens, r.dollar)
  }

  /** The text is the spelling of the regex r. */
  ghost predicate Spells(r: Regex, text: string) {
    WellFormed(r) && Render(r) == text
  }

  ghost predicate TokenMatches(t: Token, s: string) {
    && (forall i :: 0 <= i < |s| ==> AtomMatchesChar(t.escaped, t.c, s[i]))
    && match t.rep
       case Once => |s| == 1
       case Optional => |s| <= 1
       case Star => true
       case Plus => |s| >= 1
  }

  /** s is a concatenation of one match per token. */
  ghost predicate InLanguage(tokens: seq<Token>, s: string) {
    if tokens == [] then s == []
    else exists k :: 0 <= k <= |s| && TokenMatches(tokens[0], s[..k]) && InLanguage(tokens[1..], s[k..])
  }

  /** Some prefix of s, or the whole of it when the end is anchored, is in the language. */
  ghost predicate MatchesHead(tokens: seq<Token>, dollar: bool, s: string) {
    exists k :: 0 <= k <= |s| && InLanguage(tokens, s[..k]) && (dollar ==> k == |s|)
  }

  /** Some substring of s that respects the anchors is in the language. */
  ghost predicate MatchesSubstring(r: Regex, s: string) {
    exists i, j :: 0 <= i <= j <= |s| && InLanguage(r.tokens, s[i..j]) && (r.hat ==> i == 0) && (r.dollar ==> j == |s|)
  }

  /** Characters that a token stands for, as often as its sign allows. */
  lemma {:induction false} TokenStandsFor(t: Token, s: string)
    ensures TokenMatches(t, s) <==>
      && (forall i :: 0 <= i < |s| ==> StandsFor(t.escaped, t.c, s[i]))
      && (t.rep == Once ==> |s| == 1) && (t.rep == Optional ==> |s| <= 1) && (t.rep == Plus ==> |s| >= 1)
  {
    forall i | 0 <= i < |s|
      ensures AtomMatchesChar(t.escaped, t.c, s[i]) <==> StandsFor(t.escaped, t.c, s[i])
    {
      AtomStandsFor(t.escaped, t.c, s[i]);
    }
  }

  /** A pattern of one atom is found exactly where one of its characters occurs. */
  lemma {:induction false} OneAtomIsFound(t: Token, s: string)
    requires t.rep == Once
    ensures MatchesSubstring(Regex(false, [t], false), s)
      <==> exists i :: 0 <= i < |s| && StandsFor(t.escaped, t.c, s[i])
  {
    var r := Regex(false, [t], false);
    assert r.tokens[1..] == [];
    if MatchesSubstring(r, s) {
      var i, j :| 0 <= i <= j <= |s| && InLanguage(r.tokens, s[i..j]);
      var k :| 0 <= k <= |s[i..j]| && TokenMatches(t, s[i..j][..k]) && InLanguage([], s[i..j][k..]);
      TokenStandsFor(t, s[i..j][..k]);
      assert StandsFor(t.escaped, t.c, s[i..j][..k][0]) && s[i..j][..k][0] == s[i];
    }
    if i :| 0 <= i < |s| && StandsFor(t.escaped, t.c, s[i]) {
      var one := s[i..i + 1];
      TokenStandsFor(t, one[..1]);
      assert TokenMatches(t, one[..1]) && InLanguage([], one[1..]);
      assert InLanguage(r.tokens, one);
    }
  }

  // ---------------------------------------------------------------- matching

  /** The head of a match is a match of the first token followed by a match of the others. */
  lemma {:induction false} HeadUnfold(tokens: seq<Token>, dollar: bool, s: string)
    requires tokens != []
    ensures MatchesHead(tokens, dollar, s) <==>
            exists k :: 0 <= k <= |s| && TokenMatches(tokens[0], s[..k]) && MatchesHead(tokens[1..], dollar, s[k..])
  {
    if MatchesHead(tokens, dollar, s) {
      var n :| 0 <= n <= |s| && InLanguage(tokens, s[..n]) && (dollar ==> n == |s|);
      var k :| 0 <= k <= n && TokenMatches(tokens[0], s[..n][..k]) && InLanguage(tokens[1..], s[..n][k..]);
      assert s[..n][..k] == s[..k] && s[..n][k..] == s[k..][..n - k];
    }
    if k :| 0 <= k <= |s| && TokenMatches(tokens[0], s[..k]) && MatchesHead(tokens[1..], dollar, s[k..]) {
      var n :| 0 <= n <= |s[k..]| && InLanguage(tokens[1..], s[k..][..n]) && (dollar ==> n == |s[k..]|);
      var p := s[..k + n];
      assert p[..k] == s[..k] && p[k..] == s[k..][..n];
      assert InLanguage(tokens, p);
    }
  }

  /** How the text of some tokens starts: it is empty only for no tokens and no anchor, starts with the end
      anchor only for no tokens, and never starts with a repetition sign or the start anchor. */
  lemma {:induction false} TailStart(tokens: seq<Token>, dollar: bool)
    requires AllWellFormed(tokens)
    ensures var text := RenderTail(tokens, dollar);
            if tokens == [] then text == if dollar then "$" else ""
            else text != "" && text[0] == (if tokens[0].escaped then '\\' else tokens[0].c) &&
                 (tokens[0].escaped <==> text[0] == '\\') && text[0] != '^' && text[0] != '$' &&
                 !IsRepeat(text[0]) && text[0] != NUL
  {
    if tokens != [] {
      assert WellFormedToken(tokens[0]);
      assert RenderTail(tokens, dollar)[0] == RenderAtom(tokens[0])[0];
    }
  }

  /** How a text that starts with a token is taken apart: the atom, its repetition sign if any, the rest. */
  ghost predicate StartsWithToken(text: string, t: Token, tail: string) {
    && text != "" && (t.escaped <==> text[0] == '\\')
    && var rest := if t.escaped then text[1..] else text;
       && rest != "" && rest[0] == t.c
       && (IsRepeat(At(rest, 1)) <==> t.rep != Once)
       && (if t.rep == Once then rest[1..] == tail
           else |rest| > 1 && [rest[1]] == RenderRep(t.rep) && rest[2..] == tail)
  }

  lemma {:induction false} TokenText(tokens: seq<Token>, dollar: bool)
    requires tokens != [] && AllWellFormed(tokens)
    ensures StartsWithToken(RenderTail(tokens, dollar), tokens[0], RenderTail(tokens[1..], dollar))
  {
    var t, rest := tokens[0], tokens[1..];
    TailStart(rest, dollar);
    assert WellFormedToken(t);
    TokenParts(t, RenderTail(rest, dollar));
    RenderFirst(tokens, dollar);
  }

  lemma {:induction false} RenderFirst(tokens: seq<Token>, dollar: bool)
    requires tokens != []
    ensures RenderTail(tokens, dollar)
         == RenderAtom(tokens[0]) + (RenderRep(tokens[0].rep) + RenderTail(tokens[1..], dollar))
  {}

  lemma {:induction false} TokenParts(t: Token, tail: string)
    requires WellFormedToken(t) && (tail != "" ==> !IsRepeat(tail[0]))
    ensures StartsWithToken(RenderAtom(t) + (RenderRep(t.rep) + tail), t, tail)
  {
    var u := RenderRep(t.rep) + tail;
    var text := RenderAtom(t) + u;
    var rest := [t.c] + u;
    assert rest == if t.escaped then text[1..] else text;
    assert rest[1..] == u;
    if t.rep == Once {
      assert u == tail;
    } else {
      assert |u| > 0 && [u[0]] == RenderRep(t.rep) && u[1..] == tail;
      assert rest[1] == u[0] && rest[2..] == u[1..];
    }
  }

  /** Is the token with repetition `repeat` followed by the regex matched at the head of str? */
  method MatchRepetitionAndRegexAtHead(escaped: bool, c: char, repeat: char, regex: string, str: string,
                                       ghost tokens: seq<Token>, ghost dollar: bool)
    returns (found: bool)
    requires CString(str) && |str| < SIZE_MAX
    requires tokens != [] && (AllWellFormed(tokens))
    requires tokens[0].escaped == escaped && tokens[0].c == c && [repeat] == RenderRep(tokens[0].rep)
    requires regex == RenderTail(tokens[1..], dollar)
    ensures found <==> MatchesHead(tokens, dollar, str)
    decreases |regex|, 1
  {
    HeadUnfold(tokens, dollar, str);
    var minCount := if repeat == '+' then 1 else 0;
    var maxCount := if repeat == '?' then 1 else SIZE_MAX - 1;
    var i := 0;
    while i <= maxCount
      invariant 0 <= i <= |str| + 1 && i <= maxCount + 1
      invariant i == |str| + 1 ==> i == maxCount + 1
      invariant forall j :: 0 <= j < i && j < |str| ==> AtomMatchesChar(escaped, c, str[j])
      invariant forall j :: minCount <= j < i && j <= |str| ==> !MatchesHead(tokens[1..], dollar, str[j..])
      decreases maxCount + 1 - i
    {
      if i >= minCount {
        var tail := MatchRegexAtHead(regex, str[i..], tokens[1..], dollar);
        if tail {
          assert TokenMatches(tokens[0], str[..i]);
          return true;
        }
      }
      if At(str, i) == NUL || !AtomMatchesChar(escaped, c, At(str, i)) {
        forall k | i < k <= |str|
          ensures !TokenMatches(tokens[0], str[..k])
        {
          assert str[..k][i] == str[i];
        }
        return false;
      }
      i := i + 1;
    }
    return false;
  }

  /** Does the regex, without a start anchor, match at the head of str? */
  method MatchRegexAtHead(regex: string, str: string, ghost tokens: seq<Token>, ghost dollar: bool)
    returns (found: bool)
    requires CString(str) && |str| < SIZE_MAX
    requires AllWellFormed(tokens)
    requires regex == RenderTail(tokens, dollar)
    ensures found <==> MatchesHead(tokens, dollar, str)
    decreases |regex|, 0
  {
    TailStart(tokens, dollar);
    if At(regex, 0) == NUL {
      assert InLanguage(tokens, str[..0]);
      return true;
    }
    if At(regex, 0) == '$' {
      assert InLanguage(tokens, str[..0]);
      return At(str, 0) == NUL;
    }
    HeadUnfold(tokens, dollar, str);
    TokenText(tokens, dollar);
    var escaped := regex[0] == '\\';
    var rest := if escaped then regex[1..] else regex;
    if IsRepeat(At(rest, 1)) {
      found := MatchRepetitionAndRegexAtHead(escaped, rest[0], rest[1], rest[2..], str, tokens, dollar);
    } else if At(str, 0) == NUL || !AtomMatchesChar(escaped, rest[0], At(str, 0)) {
      found := false;
    } else {
      found := MatchRegexAtHead(rest[1..], str[1..], tokens[1..], dollar);
    }
  }

  /** Does the regex match some substring of str?  Null pointers never match. */
  method MatchRegexAnywhere(regex: Option<string>, str: Option<string>, ghost r: Regex) returns (found: bool)
    requires str.Some? ==> CString(str.value) && |str.value| < SIZE_MAX
    requires regex.Some? ==> Spells(r, regex.value)
    ensures found <==> regex.Some? && str.Some? && MatchesSubstring(r, str.value)
  {
    if regex.None? || str.None? {
      return false;
    }
    TailStart(r.tokens, r.dollar);
    var s := str.value;
    SubstringIsHeadOfSuffix(r, s);
    if At(regex.value, 0) == '^' {
      assert regex.value[1..] == RenderTail(r.tokens, r.dollar);
      assert s[0..] == s;
      found := MatchRegexAtHead(regex.value[1..], s, r.tokens, r.dollar);
      return;
    }
    var i := 0;
    while true
      invariant 0 <= i <= |s|
      invariant forall j :: 0 <= j < i ==> !MatchesHead(r.tokens, r.dollar, s[j..])
      decreases |s| - i
    {
      var here := MatchRegexAtHead(regex.value, s[i..], r.tokens, r.dollar);
      if here {
        return true;
      }
      if At(s, i) == NUL {
        return false;
      }
      i := i + 1;
    }
  }

  lemma {:induction false} SubstringIsHeadOfSuffix(r: Regex, s: string)
    ensures MatchesSubstring(r, s) <==>
            exists i :: 0 <= i <= |s| && (r.hat ==> i == 0) && MatchesHead(r.tokens, r.dollar, s[i..])
  {
    if MatchesSubstring(r, s) {
      var i, j :| 0 <= i <= j <= |s| && InLanguage(r.tokens, s[i..j]) && (r.hat ==> i == 0) && (r.dollar ==> j == |s|);
      assert s[i..][..j - i] == s[i..j];
      assert MatchesHead(r.tokens, r.dollar, s[i..]);
    }
    if i :| 0 <= i <= |s| && (r.hat ==> i == 0) && MatchesHead(r.tokens, r.dollar, s[i..]) {
      var k :| 0 <= k <= |s[i..]| && InLanguage(r.tokens, s[i..][..k]) && (r.dollar ==> k == |s[i..]|);
      assert s[i..][..k] == s[i..i + k];
    }
  }

  // ---------------------------------------------------------------- validation

  /** What the validating scan accepts from one position on: `first` at the very beginning,
      `prev` when a repetition sign may follow. */
  ghost predicate Scan(s: string, first: bool, prev: bool) {
    if s == "" then true
    else if s[0] == '\\' then |s| >= 2 && IsValidEscape(s[1]) && Scan(s[2..], false, true)
    else PlainAllowed(s[0], first, |s| == 1, prev) && Scan(s[1..], false, s[0] != '^' && s[0] != '$' && !IsRepeat(s[0]))
  }

  ghost predicate PlainAllowed(ch: char, first: bool, last: bool, prev: bool) {
    (ch == '^' ==> first) && (ch == '$' ==> last) && !IsUnsupported(ch) && (IsRepeat(ch) ==> prev)
  }

  /** Accepts exactly the spellings of well-formed regexes. */
  method ValidateRegex(regex: Option<string>) returns (isValid: bool)
    requires regex.Some? ==> CString(regex.value)
    ensures isValid <==> regex.Some? && exists r :: Spells(r, regex.value)
  {
    if regex.None? {
      return false;
    }
    var text := regex.value;
    isValid := true;
    var prevRepeatable := false;
    var i := 0;
    while At(text, i) != NUL
      invariant 0 <= i <= |text|
      invariant isValid && Scan(text[i..], i == 0, prevRepeatable) <==> Scan(text, true, false)
      decreases |text| - i
    {
      ghost var rest, valid0 := text[i..], isValid;
      if text[i] == '\\' {
        i := i + 1;
        if At(text, i) == NUL {
          ScanAcceptsSpellings(text);
          return false;
        }
        if !IsValidEscape(text[i]) {
          isValid := false;
        }
        prevRepeatable := true;
        assert rest[2..] == text[i + 1..];
      } else {
        var ch := text[i];
        if ch == '^' && i > 0 {
          isValid := false;
        } else if ch == '$' && At(text, i + 1) != NUL {
          isValid := false;
        } else if IsUnsupported(ch) {
          isValid := false;
        } else if IsRepeat(ch) && !prevRepeatable {
          isValid := false;
        }
        assert isValid <==> valid0 && PlainAllowed(ch, i == 0, |rest| == 1, prevRepeatable);
        prevRepeatable := ch != '^' && ch != '$' && !IsRepeat(ch);
        assert rest[1..] == text[i + 1..];
      }
      i := i + 1;
    }
    ScanAcceptsSpellings(text);
  }

  lemma {:induction false} ScanAcceptsSpellings(text: string)
    requires CString(text)
    ensures Scan(text, true, false) <==> exists r :: Spells(r, text)
  {
    if Scan(text, true, false) {
      var hat := text != "" && text[0] == '^';
      var rep, tokens, dollar := ScanSound(if hat then text[1..] else text, false);
      assert Spells(Regex(hat, tokens, dollar), text);
    }
    if r :| Spells(r, text) {
      ScanComplete(r.tokens, r.dollar, !r.hat, false);
      if r.hat {
        assert text == "^" + RenderTail(r.tokens, r.dollar);
        assert text[1..] == RenderTail(r.tokens, r.dollar);
      } else {
        assert text == RenderTail(r.tokens, r.dollar);
      }
    }
  }

  lemma {:induction false} ScanAtom(t: Token, rest: string, first: bool, prev: bool)
    requires WellFormedToken(t)
    ensures Scan(RenderAtom(t) + rest, first, prev) <==> Scan(rest, false, true)
  {
    var s := RenderAtom(t) + rest;
    assert s[|RenderAtom(t)|..] == rest;
    assert s[0] == if t.escaped then '\\' else t.c;
  }

  lemma {:induction false} ScanRep(rep: Repetition, rest: string)
    ensures Scan(RenderRep(rep) + rest, false, true) <==> Scan(rest, false, rep == Once)
  {
    var s := RenderRep(rep) + rest;
    if rep == Once {
      assert s == rest;
    } else {
      assert s[1..] == rest;
    }
  }

  lemma {:induction false} HeadAndTail(s: string, head: string, tail: string)
    requires |head| <= |s| && head == s[..|head|] && "" + tail == s[|head|..]
    ensures s == head + tail
  {
    assert tail == s[|head|..];
  }

  /** Reads an accepted text back: what is left of the previous token's repetition, then tokens and anchor. */
  lemma {:induction false} ScanSound(s: string, prev: bool) returns (rep: Repetition, tokens: seq<Token>, dollar: bool)
    requires CString(s) && Scan(s, false, prev)
    ensures AllWellFormed(tokens)
    ensures s == RenderRep(rep) + RenderTail(tokens, dollar)
    ensures rep != Once ==> prev
    decreases |s|
  {
    if s == "" {
      rep, tokens, dollar := Once, [], false;
    } else if s[0] == '$' {
      rep, tokens, dollar := Once, [], true;
      assert s == "$";
    } else if IsRepeat(s[0]) {
      var rep';
      rep', tokens, dollar := ScanSound(s[1..], false);
      rep := if s[0] == '?' then Optional else if s[0] == '*' then Star else Plus;
      assert RenderRep(rep') == "";
      HeadAndTail(s, RenderRep(rep), RenderTail(tokens, dollar));
    } else {
      var width := if s[0] == '\\' then 2 else 1;
      var rep', tokens', dollar' := ScanSound(s[width..], true);
      var t := Token(s[0] == '\\', s[width - 1], rep');
      assert s[..width] == RenderAtom(t);
      ConsTail(t, tokens', dollar', s[width..]);
      rep, tokens, dollar := Once, [t] + tokens', dollar';
      HeadAndTail(s, RenderAtom(t), s[width..]);
      assert RenderRep(rep) + s == s;
    }
  }

  lemma {:induction false} ConsTail(t: Token, tokens: seq<Token>, dollar: bool, rest: string)
    requires WellFormedToken(t) && AllWellFormed(tokens)
    requires rest == RenderRep(t.rep) + RenderTail(tokens, dollar)
    ensures AllWellFormed([t] + tokens)
    ensures RenderTail([t] + tokens, dollar) == RenderAtom(t) + rest
  {
    assert ([t] + tokens)[1..] == tokens;
  }

  lemma {:induction false} ScanComplete(tokens: seq<Token>, dollar: bool, first: bool, prev: bool)
    requires AllWellFormed(tokens)
    ensures Scan(RenderTail(tokens, dollar), first, prev)
  {
    if tokens != [] {
      var t, rest := tokens[0], tokens[1..];
      var tail := RenderTail(rest, dollar);
      ScanComplete(rest, dollar, false, t.rep == Once);
      ScanRep(t.rep, tail);
      var signed := RenderRep(t.rep) + tail;
      ScanAtom(t, signed, first, prev);
      RenderFirst(tokens, dollar);
    }
  }

  /** A text has at most one reading. */
  lemma {:induction false} ReadingIsUnique(t1: seq<Token>, d1: bool, t2: seq<Token>, d2: bool)
    requires AllWellFormed(t1)
    requires AllWellFormed(t2)
    requires RenderTail(t1, d1) == RenderTail(t2, d2)
    ensures t1 == t2 && d1 == d2
  {
    TailStart(t1, d1);
    TailStart(t2, d2);
    if t1 != [] && t2 != [] {
      TokenText(t1, d1);
      TokenText(t2, d2);
      assert t1[0] == t2[0];
      ReadingIsUnique(t1[1..], d1, t2[1..], d2);
      assert t1 == [t1[0]] + t1[1..] && t2 == [t2[0]] + t2[1..];
    }
  }

  // ---------------------------------------------------------------- the RE wrapper

  /** The pattern used for a full match: anchors are added where the text does not show them. */
  function FullPattern(regex: string): string {
    var front := if At(regex, 0) != '^' then "^" else "";
    var back := if |regex| == 0 || regex[|regex| - 1] != '$' then "$" else "";
    front + regex + back
  }

  /** The text ends in a dollar sign that is an escaped character, not an anchor. */
  ghost predicate EndsInEscapedDollar(r: Regex) {
    !r.dollar && r.tokens != [] && r.tokens[|r.tokens| - 1] == Token(true, '$', Once)
  }

  /** The regex that the full pattern spells. */
  ghost function FullRegex(r: Regex): Regex {
    Regex(true, r.tokens, !EndsInEscapedDollar(r))
  }

  lemma {:induction false} FullPatternSpelling(r: Regex, text: string)
    requires Spells(r, text)
    ensures Spells(FullRegex(r), FullPattern(text))
  {
    var tail := RenderTail(r.tokens, r.dollar);
    TailStart(r.tokens, r.dollar);
    ClosingAnchor(r);
    var back := if tail == "" || tail[|tail| - 1] != '$' then "$" else "";
    FullPatternText(r.hat, text, tail, back);
  }

  lemma {:induction false} FullPatternText(hat: bool, text: string, tail: string, back: string)
    requires text == (if hat then "^" else "") + tail
    requires tail != "" ==> tail[0] != '^'
    requires back == if tail == "" || tail[|tail| - 1] != '$' then "$" else ""
    ensures FullPattern(text) == "^" + (tail + back)
  {
    if hat {
      assert FullPattern(text) == text + back;
    } else {
      assert text == tail;
    }
  }

  /** Closing the text with a dollar sign unless it shows one anchors it, except after an escaped dollar sign. */
  lemma {:induction false} ClosingAnchor(r: Regex)
    requires WellFormed(r)
    ensures var tail := RenderTail(r.tokens, r.dollar);
            tail + (if tail == "" || tail[|tail| - 1] != '$' then "$" else "")
            == RenderTail(r.tokens, !EndsInEscapedDollar(r))
  {
    DollarIsLast(r.tokens, r.dollar);
    DollarIsLast(r.tokens, true);
    LastCharacter(r.tokens);
    var tail := RenderTail(r.tokens, r.dollar);
    assert tail + "" == tail;
  }

  lemma {:induction false} DollarIsLast(tokens: seq<Token>, dollar: bool)
    ensures RenderTail(tokens, dollar) == RenderTail(tokens, false) + if dollar then "$" else ""
  {
    if tokens != [] {
      DollarIsLast(tokens[1..], dollar);
    }
  }

  lemma {:induction false} LastCharacter(tokens: seq<Token>)
    requires AllWellFormed(tokens)
    ensures var text := RenderTail(tokens, false);
            && (text == "" <==> tokens == [])
            && (text != "" ==> (text[|text| - 1] == '$' <==> tokens[|tokens| - 1] == Token(true, '$', Once)))
  {
    if tokens != [] {
      LastCharacter(tokens[1..]);
      assert WellFormedToken(tokens[0]);
    }
  }

  lemma {:induction false} MembersEndInLastToken(tokens: seq<Token>, s: string)
    requires tokens != [] && tokens[|tokens| - 1] == Token(true, '$', Once)
    requires InLanguage(tokens, s)
    ensures s != "" && s[|s| - 1] == '$'
  {
    var k :| 0 <= k <= |s| && TokenMatches(tokens[0], s[..k]) && InLanguage(tokens[1..], s[k..]);
    if |tokens| > 1 {
      MembersEndInLastToken(tokens[1..], s[k..]);
    } else {
      assert s[k..] == "" && s[..k] == s;
      assert AtomMatchesChar(true, '$', s[0]);
    }
  }

  ghost function SampleChar(t: Token): (ch: char)
    requires WellFormedToken(t)
    ensures ch != NUL && AtomMatchesChar(t.escaped, t.c, ch)
  {
    if !t.escaped then t.c
    else match t.c
         case 'd' => '0'
         case 'f' => '\U{0C}'
         case 'n' => '\n'
         case 'r' => '\r'
         case 's' => ' '
         case 't' => '\t'
         case 'v' => '\U{0B}'
         case 'W' => ' '
         case _ => if IsAsciiPunct(t.c) then t.c else 'a'
  }

  lemma {:induction false} LanguageIsInhabited(tokens: seq<Token>) returns (s: string)
    requires AllWellFormed(tokens)
    ensures CString(s) && InLanguage(tokens, s)
  {
    if tokens == [] {
      s := "";
    } else {
      var rest := LanguageIsInhabited(tokens[1..]);
      assert WellFormedToken(tokens[0]);
      s := [SampleChar(tokens[0])] + rest;
      assert s[..1] == [SampleChar(tokens[0])] && s[1..] == rest;
      assert TokenMatches(tokens[0], s[..1]);
    }
  }

  lemma {:induction false} FullRegexMeaning(r: Regex, s: string)
    ensures MatchesSubstring(FullRegex(r), s) <==>
            if EndsInEscapedDollar(r) then MatchesHead(r.tokens, false, s) else InLanguage(r.tokens, s)
  {
    SubstringIsHeadOfSuffix(FullRegex(r), s);
    assert s[0..] == s && s[..|s|] == s;
  }

  /** The full pattern demands a match of the whole string, for every string, exactly when the regex does not
      end in an escaped dollar sign. */
  lemma {:induction false} FullPatternAnchorsIff(r: Regex)
    requires WellFormed(r)
    ensures (forall s :: CString(s) ==> (MatchesSubstring(FullRegex(r), s) <==> InLanguage(r.tokens, s)))
            <==> !EndsInEscapedDollar(r)
  {
    forall s ensures !EndsInEscapedDollar(r) ==> (MatchesSubstring(FullRegex(r), s) <==> InLanguage(r.tokens, s)) {
      FullRegexMeaning(r, s);
    }
    if EndsInEscapedDollar(r) {
      var member := LanguageIsInhabited(r.tokens);
      var longer := member + "x";
      FullRegexMeaning(r, longer);
      assert longer[..|member|] == member;
      if InLanguage(r.tokens, longer) {
        MembersEndInLastToken(r.tokens, longer);
      }
    }
  }

  class RE {
    const pattern: Option<string>
    const fullPattern: Option<string>
    const isValid: bool

    constructor (regex: Option<string>)
      requires regex.Some? ==> CString(regex.value)
      ensures pattern == regex
      ensures isValid <==> regex.Some? && exists r :: Spells(r, regex.value)
      ensures fullPattern == if isValid then Some(FullPattern(regex.value)) else None
    {
      var valid := ValidateRegex(regex);
      pattern := regex;
      isValid := valid;
      fullPattern := if valid then Some(FullPattern(regex.value)) else None;
    }

    /** Does the whole of str match?  An escaped dollar sign at the end loosens this to a prefix of str. */
    method FullMatch(str: string, ghost r: Regex) returns (found: bool)
      requires CString(str) && |str| < SIZE_MAX
      requires isValid ==> pattern.Some? && Spells(r, pattern.value) && fullPattern == Some(FullPattern(pattern.value))
      ensures found <==> isValid && if EndsInEscapedDollar(r) then MatchesHead(r.tokens, false, str)
                                                              else InLanguage(r.tokens, str)
    {
      if !isValid {
        return false;
      }
      FullPatternSpelling(r, pattern.value);
      FullRegexMeaning(r, str);
      found := MatchRegexAnywhere(fullPattern, Some(str), FullRegex(r));
    }

    /** Does a substring of str match? */
    method PartialMatch(str: string, ghost r: Regex) returns (found: bool)
      requires CString(str) && |str| < SIZE_MAX
      requires isValid ==> pattern.Some? && Spells(r, pattern.value)
      ensures found <==> isValid && MatchesSubstring(r, str)
    {
      if !isValid {
        return false;
      }
      found := MatchRegexAnywhere(pattern, Some(str), r);
    }
  }
}
