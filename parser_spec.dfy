/** The parser as functions of (text, cursor): each function says what the
    corresponding method of Parser computes from a given cursor position,
    following the method's branches and the order of its reads. */
module ParserSpec {
  import opened Utf16
  import opened JsonModel

  /** The four code units SkipWhitespace passes to Match: space, LF, CR, tab. */
  const Whitespace: seq<CodeUnit> := [Space, LineFeed, CarriageReturn, Tab]

  predicate IsWhitespace(c: CodeUnit) {
    c in Whitespace
  }

  /** The letters that, after a backslash, are kept as themselves. */
  predicate IsSimpleEscape(c: CodeUnit) {
    c == Quote || c == Backslash || c == Slash || c == LetterB ||
    c == LetterF || c == LetterN || c == LetterR || c == LetterT
  }

  const TrueWord: seq<CodeUnit> := [0x74, 0x72, 0x75, 0x65]        // true
  const FalseWord: seq<CodeUnit> := [0x66, 0x61, 0x6C, 0x73, 0x65] // false
  const NullWord: seq<CodeUnit> := [0x6E, 0x75, 0x6C, 0x6C]        // null

  /** The result of Literal. */
  datatype LiteralType = TrueLiteral | FalseLiteral | NullLiteral | InvalidLiteral

  /** The cursor after Advance: one further, but never past the end. */
  function Advanced(s: seq<CodeUnit>, pos: nat): (p: nat)
    requires pos <= |s|
    ensures p <= |s|
    ensures pos < |s| ==> p == pos + 1
    ensures pos == |s| ==> p == pos
  {
    if pos < |s| then pos + 1 else pos
  }

  /** SkipWhitespace: Match peeks before it checks IsAtEnd, so running into
      the end of input throws. */
  function SkipWhitespaceAt(s: seq<CodeUnit>, pos: nat): (r: Step<()>)
    requires pos <= |s|
    ensures r.Next? ==> pos <= r.pos < |s| && !IsWhitespace(s[r.pos])
    ensures r.Halt? ==> r.fault == OutOfRange
    decreases |s| - pos
  {
    if pos == |s| then Halt(OutOfRange)
    else if IsWhitespace(s[pos]) then SkipWhitespaceAt(s, pos + 1)
    else Next((), pos)
  }

  /** The loop of MatchWord once the first i letters of word have matched. */
  function MatchLettersAt(s: seq<CodeUnit>, start: nat, word: seq<CodeUnit>, i: nat): (r: Step<bool>)
    requires i <= |word| && start + i <= |s| && s[start..start + i] == word[..i]
    ensures r.Next? && r.value ==> r.pos == start + |word| <= |s| && s[start..r.pos] == word
    ensures r.Next? && !r.value ==> r.pos == start
    ensures r.Halt? ==> r.fault == OutOfRange
    decreases |word| - i
  {
    if i == |word| then Next(true, start + i)
    else if start + i == |s| then Halt(OutOfRange)
    else if s[start + i] != word[i] then Next(false, start)
    else
      assert s[start..start + i + 1] == s[start..start + i] + [s[start + i]];
      assert word[..i + 1] == word[..i] + [word[i]];
      MatchLettersAt(s, start, word, i + 1)
  }

  function MatchWordAt(s: seq<CodeUnit>, start: nat, word: seq<CodeUnit>): (r: Step<bool>)
    requires start <= |s|
    ensures r.Next? && r.value ==> r.pos == start + |word| <= |s| && s[start..r.pos] == word
    ensures r.Next? && !r.value ==> r.pos == start
    ensures r.Halt? ==> r.fault == OutOfRange
  {
    MatchLettersAt(s, start, word, 0)
  }

  function Keyword(t: LiteralType): seq<CodeUnit> {
    match t
    case TrueLiteral => TrueWord
    case FalseLiteral => FalseWord
    case NullLiteral => NullWord
    case InvalidLiteral => []
  }

  /** Literal: "true", then "false", then "null", each from the cursor the
      previous attempt rolled back to. */
  function LiteralAt(s: seq<CodeUnit>, pos: nat): (r: Step<LiteralType>)
    requires pos <= |s|
    ensures r.Next? ==> r.pos == pos + |Keyword(r.value)| <= |s| && s[pos..r.pos] == Keyword(r.value)
    ensures r.Halt? ==> r.fault == OutOfRange
  {
    match MatchWordAt(s, pos, TrueWord)
    case Halt(f) => Halt(f)
    case Next(true, p) => Next(TrueLiteral, p)
    case Next(false, p) =>
      match MatchWordAt(s, p, FalseWord)
      case Halt(f) => Halt(f)
      case Next(true, p') => Next(FalseLiteral, p')
      case Next(false, p') =>
        match MatchWordAt(s, p', NullWord)
        case Halt(f) => Halt(f)
        case Next(true, p'') => Next(NullLiteral, p'')
        case Next(false, p'') => Next(InvalidLiteral, p'')
  }

  /** Value: dispatch on the code unit at the cursor. */
  function ValueAt(s: seq<CodeUnit>, pos: nat): (r: Step<Json>)
    requires pos <= |s|
    ensures pos == |s| ==> r == Halt(OutOfRange)
    ensures r.Next? ==> pos < r.pos <= |s|
    decreases |s| - pos, 2
  {
    if pos == |s| then Halt(OutOfRange)
    else ValueStartingWith(s, pos, s[pos])
  }

  /** Value once Peek has returned the code unit `next` at the cursor. */
  function ValueStartingWith(s: seq<CodeUnit>, pos: nat, next: CodeUnit): (r: Step<Json>)
    requires pos < |s| && next == s[pos]
    ensures r.Next? ==> pos < r.pos <= |s|
    decreases |s| - pos, 1
  {
    if next == LeftBrace then Halt(NotImplemented)
    else if next == LeftBracket then
      match ArrayAt(s, pos)
      case Halt(f) => Halt(f)
      case Next(a, p) => Next(JArray(a), p)
    else if next == Quote then
      match StringAt(s, pos)
      case Halt(f) => Halt(f)
      case Next(str, p) => Next(JString(str), p)
    else if IsAsciiDigit(next) || next == Minus then Halt(NotImplemented)
    else LiteralValue(LiteralAt(s, pos), next)
  }

  /** Value, started at pos, returns v and leaves the cursor at q. */
  predicate ReadsValue(s: seq<CodeUnit>, pos: nat, v: Json, q: nat) {
    pos <= |s| && ValueAt(s, pos) == Next(v, q)
  }

  /** The value Value returns for the literal Literal found, or the
      unexpected-token exception naming the code unit it peeked. */
  function LiteralValue(l: Step<LiteralType>, next: CodeUnit): Step<Json>
  {
    match l
    case Halt(f) => Halt(f)
    case Next(TrueLiteral, p) => Next(JBool(true), p)
    case Next(FalseLiteral, p) => Next(JBool(false), p)
    case Next(NullLiteral, p) => Next(JNull, p)
    case Next(InvalidLiteral, _) => Halt(ParseError(UnexpectedToken(next)))
  }

  /** Array: step over '[', skip whitespace, and either close at once or read elements. */
  function ArrayAt(s: seq<CodeUnit>, pos: nat): (r: Step<seq<Json>>)
    requires pos <= |s|
    ensures r.Next? ==> pos < r.pos <= |s|
    decreases |s| - pos, 0
  {
    match SkipWhitespaceAt(s, Advanced(s, pos))
    case Halt(f) => Halt(f)
    case Next(_, k) =>
      if s[k] == RightBracket then Next([], k + 1)
      else ElementsAt(s, k, [])
  }

  /** The element loop of Array, with `acc` the elements read so far. */
  function ElementsAt(s: seq<CodeUnit>, pos: nat, acc: seq<Json>): (r: Step<seq<Json>>)
    requires pos <= |s|
    ensures r.Next? ==> pos < r.pos <= |s| && acc < r.value
    decreases |s| - pos, 3
  {
    match ValueAt(s, pos)
    case Halt(f) => Halt(f)
    case Next(v, q) =>
      match SkipWhitespaceAt(s, q)
      case Halt(f) => Halt(f)
      case Next(_, k) =>
        if s[k] == RightBracket then Next(acc + [v], k + 1)
        else if s[k] != Comma then Halt(ParseError(ExpectedComma))
        else
          match SkipWhitespaceAt(s, k + 1)
          case Halt(f) => Halt(f)
          case Next(_, p) => ElementsAt(s, p, acc + [v])
  }

  /** ElementsAt once the value at `pos` and the whitespace after it have
      been read: it closes on ']' and throws on anything but ','. */
  lemma ElementsAfterValue(s: seq<CodeUnit>, pos: nat, acc: seq<Json>, v: Json, q: nat, k: nat)
    requires ReadsValue(s, pos, v, q)
    requires SkipWhitespaceAt(s, q) == Next((), k)
    ensures s[k] == RightBracket ==> ElementsAt(s, pos, acc) == Next(acc + [v], k + 1)
    ensures s[k] != RightBracket && s[k] != Comma ==> ElementsAt(s, pos, acc) == Halt(ParseError(ExpectedComma))
  {
  }

  /** ElementsAt after a ',' and the whitespace after it: the next element. */
  lemma ElementsAfterComma(s: seq<CodeUnit>, pos: nat, acc: seq<Json>, v: Json, q: nat, k: nat, p: nat)
    requires ReadsValue(s, pos, v, q)
    requires SkipWhitespaceAt(s, q) == Next((), k) && s[k] == Comma
    requires SkipWhitespaceAt(s, k + 1) == Next((), p)
    ensures ElementsAt(s, pos, acc) == ElementsAt(s, p, acc + [v])
  {
  }

  /** ElementsAt after a ',' followed only by whitespace: reading past the end throws. */
  lemma ElementsAfterTrailingComma(s: seq<CodeUnit>, pos: nat, acc: seq<Json>, v: Json, q: nat, k: nat)
    requires ReadsValue(s, pos, v, q)
    requires SkipWhitespaceAt(s, q) == Next((), k) && s[k] == Comma
    requires SkipWhitespaceAt(s, k + 1).Halt?
    ensures ElementsAt(s, pos, acc) == Halt(OutOfRange)
  {
  }

  /** String: step over the opening quote, skip whitespace, then scan. */
  function StringAt(s: seq<CodeUnit>, pos: nat): (r: Step<seq<CodeUnit>>)
    requires pos <= |s|
    ensures r.Next? ==> pos < r.pos <= |s|
  {
    match SkipWhitespaceAt(s, Advanced(s, pos))
    case Halt(f) => Halt(f)
    case Next(_, k) => CharsAt(s, k, [], false)
  }

  /** The scanning loop of String: `acc` is the text so far and `escaped`
      the isEscape flag. */
  function CharsAt(s: seq<CodeUnit>, pos: nat, acc: seq<CodeUnit>, escaped: bool): (r: Step<seq<CodeUnit>>)
    requires pos <= |s|
    ensures r.Next? ==> pos < r.pos <= |s| && acc <= r.value
    decreases |s| - pos
  {
    if pos == |s| then Halt(ParseError(UnexpectedEnd))
    else
      var letter := s[pos];
      if escaped then
        if IsSimpleEscape(letter) then CharsAt(s, pos + 1, acc + [letter], false)
        else if letter == LetterU then
          match UnicodeAt(s, pos)
          case Halt(f) => Halt(f)
          case Next(c, p) => CharsAt(s, p, acc + [c], false)
        else Halt(ParseError(UnexpectedEscape(letter)))
      else if letter == Backslash then CharsAt(s, pos + 1, acc, true)
      else if letter == Quote then Next(acc, pos + 1)
      else CharsAt(s, pos + 1, acc + [letter], false)
  }

  /** The loop of Unicode once `hex` holds the digits read so far. */
  function HexDigitsAt(s: seq<CodeUnit>, pos: nat, hex: seq<CodeUnit>): (r: Step<seq<CodeUnit>>)
    requires pos <= |s| && |hex| <= 4
    requires forall i | 0 <= i < |hex| :: IsAsciiHexDigit(hex[i])
    ensures r.Next? ==> r.pos == pos + 4 - |hex| <= |s| && r.value == hex + s[pos..r.pos]
    ensures r.Next? ==> forall i | 0 <= i < |r.value| :: IsAsciiHexDigit(r.value[i])
    decreases 4 - |hex|
  {
    if |hex| == 4 then Next(hex, pos)
    else if pos == |s| then Halt(ParseError(UnexpectedEnd))
    else if !IsAsciiHexDigit(s[pos]) then Halt(ParseError(NonHexDigit))
    else HexDigitsAt(s, pos + 1, hex + [s[pos]])
  }

  function Pow16(n: nat): nat {
    if n == 0 then 1 else 16 * Pow16(n - 1)
  }

  function HexDigitValue(c: CodeUnit): (d: nat)
    requires IsAsciiHexDigit(c)
    ensures d < 16
  {
    if IsAsciiDigit(c) then (c - 0x30) as nat
    else if c <= 0x46 then (c - 0x41) as nat + 10
    else (c - 0x61) as nat + 10
  }

  /** int.Parse(hex, NumberStyles.HexNumber) on a string of hex digits. */
  function HexNumber(hex: seq<CodeUnit>): (n: nat)
    requires forall i | 0 <= i < |hex| :: IsAsciiHexDigit(hex[i])
    ensures n < Pow16(|hex|)
  {
    if hex == [] then 0
    else HexNumber(hex[..|hex| - 1]) * 16 + HexDigitValue(hex[|hex| - 1])
  }

  /** `(char)unicode` on the number four hex digits spell; it always fits. */
  function HexUnit(hex: seq<CodeUnit>): CodeUnit
    requires |hex| == 4 && forall i | 0 <= i < |hex| :: IsAsciiHexDigit(hex[i])
  {
    assert Pow16(|hex|) == 0x1_0000;
    HexNumber(hex) as CodeUnit
  }

  /** Unicode: step over 'u', read four hex digits, return the code unit they spell. */
  function UnicodeAt(s: seq<CodeUnit>, pos: nat): (r: Step<CodeUnit>)
    requires pos <= |s|
    ensures r.Next? ==> r.pos == Advanced(s, pos) + 4 <= |s|
  {
    match HexDigitsAt(s, Advanced(s, pos), [])
    case Halt(f) => Halt(f)
    case Next(hex, p) => Next(HexUnit(hex), p)
  }

  /** ParseAny: skip whitespace, read one value, ignore whatever follows it. */
  function ParseAnyAt(s: seq<CodeUnit>, start: nat): (r: Step<Json>)
    requires start <= |s|
    ensures start == |s| ==> r == Halt(OutOfRange)
    ensures r.Next? ==> start < r.pos <= |s|
    ensures r.Next? ==> exists p | start <= p < |s| :: !IsWhitespace(s[p]) && ValueAt(s, p) == r
  {
    match SkipWhitespaceAt(s, start)
    case Halt(f) => Halt(f)
    case Next(_, p) => ValueAt(s, p)
  }
}
