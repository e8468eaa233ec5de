/** The text model shared by the parser and the serializer: a .NET string
    is a sequence of UTF-16 code units, any of 0..0xFFFF (lone surrogates
    included), which is why Dafny's `char` is not used for it. */
module Utf16 {

  newtype CodeUnit = c: int | 0 <= c < 0x1_0000

  /** The code units of a Dafny string literal drawn from the Basic Multilingual Plane. */
  function Text(s: string): (r: seq<CodeUnit>)
    requires forall i | 0 <= i < |s| :: s[i] as int < 0x1_0000
    ensures |r| == |s|
  {
    seq(|s|, i requires 0 <= i < |s| => s[i] as int as CodeUnit)
  }

  // Code units the parser tests for.
  const Tab: CodeUnit := 0x09
  const LineFeed: CodeUnit := 0x0A
  const CarriageReturn: CodeUnit := 0x0D
  const Space: CodeUnit := 0x20
  const Quote: CodeUnit := 0x22           // "
  const Comma: CodeUnit := 0x2C           // ,
  const Minus: CodeUnit := 0x2D           // -
  const Slash: CodeUnit := 0x2F           // /
  const LeftBracket: CodeUnit := 0x5B     // [
  const Backslash: CodeUnit := 0x5C       // \
  const RightBracket: CodeUnit := 0x5D    // ]
  const LetterB: CodeUnit := 0x62         // b
  const LetterF: CodeUnit := 0x66         // f
  const LetterN: CodeUnit := 0x6E         // n
  const LetterR: CodeUnit := 0x72         // r
  const LetterT: CodeUnit := 0x74         // t
  const LetterU: CodeUnit := 0x75         // u
  const LeftBrace: CodeUnit := 0x7B       // {

  /** The code units of '0' to '9'. */
  const AsciiDigits: set<CodeUnit> := {0x30, 0x31, 0x32, 0x33, 0x34, 0x35, 0x36, 0x37, 0x38, 0x39}

  /** The code units of 'A' to 'F' and 'a' to 'f'. */
  const HexLetters: set<CodeUnit> := {0x41, 0x42, 0x43, 0x44, 0x45, 0x46, 0x61, 0x62, 0x63, 0x64, 0x65, 0x66}

  /** char.IsAsciiDigit: '0'..'9'. */
  predicate IsAsciiDigit(c: CodeUnit) {
    0x30 <= c <= 0x39
  }

  /** char.IsAsciiHexDigit: '0'..'9', 'A'..'F', 'a'..'f'. */
  predicate IsAsciiHexDigit(c: CodeUnit) {
    IsAsciiDigit(c) || 0x41 <= c <= 0x46 || 0x61 <= c <= 0x66
  }

  /** The range tests of IsAsciiDigit and IsAsciiHexDigit accept the ten
      decimal digits, and those and the six hex letters in either case, and
      nothing else. */
  lemma AsciiDigitClasses(c: CodeUnit)
    ensures IsAsciiDigit(c) <==> c in AsciiDigits
    ensures IsAsciiHexDigit(c) <==> c in AsciiDigits || c in HexLetters
  {
  }
}
